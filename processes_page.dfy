/** The process list page (src/ui/pages/processes/mod.rs): the store of rows reconciled with a
    fresh set of process items on every refresh, the user-name cache, the search filter and
    the rule for when a signal needs confirming. The rows' presentation, the sorter and the
    widgets are not modelled; a row is its pid, the item it shows and its user's name. */
module ProcessesPage {
  import opened Wrappers
  import opened Text
  import I18n
  import Process
  import AppGroups

  /** What `AppsContext::process_items` gives for one process, as far as the page reads it. */
  datatype ProcessItem = ProcessItem(pid: int, uid: nat, displayName: string, commandline: string)

  /** A row of the store. */
  datatype ProcessEntry = ProcessEntry(pid: int, item: ProcessItem, userName: string)

  /** The information dialog: the pid it was opened for, the item it shows, the user name it
      was opened with, whether it is still open. */
  datatype ProcessDialog = ProcessDialog(pid: int, shown: ProcessItem, userName: string, open: bool)

  // ---------------------------------------------------------------- the update pass

  /** The state of the pass over the store: the rows so far (updated in place), the items not
      yet consumed, the pids to remove, the dialog, whether the pass still holds the dialog
      (`dialog_opt`, dropped once the dialog is closed), and the popped-over process. */
  datatype Pass = Pass(entries: seq<ProcessEntry>, remaining: map<int, ProcessItem>, toRemove: set<int>,
                       dialog: Option<ProcessDialog>, holdsDialog: bool, poppedOver: Option<int>)

  /** The pass before the first row. */
  function StartPass(newItems: map<int, ProcessItem>, dialog: Option<ProcessDialog>, poppedOver: Option<int>): Pass
  {
    Pass([], newItems, {}, dialog, dialog.Some?, poppedOver)
  }

  /** One row of the pass: a row whose pid `AppsContext` no longer has is marked for removal
      (closing its dialog and the popover); a row with a fresh item takes it, and so does its
      dialog while the pass holds it. */
  function Step(st: Pass, e: ProcessEntry, known: set<int>): Pass
  {
    var vanished := e.pid !in known;
    var closes := vanished && st.holdsDialog && st.dialog.Some? && st.dialog.value.pid == e.pid;
    var dialog := if closes then Some(st.dialog.value.(open := false)) else st.dialog;
    var holds := st.holdsDialog && !closes;
    var popped := if vanished then None else st.poppedOver;
    var toRemove := if vanished then st.toRemove + {e.pid} else st.toRemove;
    if e.pid in st.remaining then
      var item := st.remaining[e.pid];
      var shown := if holds && dialog.Some? && dialog.value.pid == e.pid then Some(dialog.value.(shown := item)) else dialog;
      Pass(st.entries + [e.(item := item)], st.remaining - {e.pid}, toRemove, shown, holds, popped)
    else
      Pass(st.entries + [e], st.remaining, toRemove, dialog, holds, popped)
  }

  /** The pass over the rows of `store`, in order. */
  function UpdatePass(store: seq<ProcessEntry>, known: set<int>, start: Pass): Pass
    decreases |store|
  {
    if |store| == 0 then start
    else Step(UpdatePass(store[..|store| - 1], known, start), store[|store| - 1], known)
  }

  /** The rows whose pid is not marked for removal, in order (`retain`). */
  function Retained(entries: seq<ProcessEntry>, toRemove: set<int>): (r: seq<ProcessEntry>)
    ensures |r| <= |entries|
    decreases |entries|
  {
    if |entries| == 0 then []
    else
      var rest := Retained(entries[..|entries| - 1], toRemove);
      if entries[|entries| - 1].pid in toRemove then rest else rest + [entries[|entries| - 1]]
  }

  function PidsOf(store: seq<ProcessEntry>): set<int>
  {
    set i | 0 <= i < |store| :: store[i].pid
  }

  /** No two rows share a pid. */
  predicate UniquePids(store: seq<ProcessEntry>)
  {
    forall i, j :: 0 <= i < j < |store| ==> store[i].pid != store[j].pid
  }

  /** The pass keeps the rows in place and in order, and gives each row whose pid still has
      an unconsumed item that item. */
  lemma {:induction false} PassEntries(store: seq<ProcessEntry>, known: set<int>, newItems: map<int, ProcessItem>,
                                       dialog: Option<ProcessDialog>, poppedOver: Option<int>)
    requires UniquePids(store)
    ensures var p := UpdatePass(store, known, StartPass(newItems, dialog, poppedOver));
      |p.entries| == |store| &&
      (forall i :: 0 <= i < |store| ==>
        p.entries[i] == (if store[i].pid in newItems then store[i].(item := newItems[store[i].pid]) else store[i]))
    decreases |store|
  {
    if |store| > 0 {
      var init := store[..|store| - 1];
      var e := store[|store| - 1];
      assert UniquePids(init);
      PassEntries(init, known, newItems, dialog, poppedOver);
      PassSets(init, known, newItems, dialog, poppedOver);
      UniqueLast(store);
    }
  }

  /** Over rows with distinct pids, the pass consumes exactly the items of the rows' pids and
      marks exactly the pids `AppsContext` no longer has. */
  lemma {:induction false} PassSets(store: seq<ProcessEntry>, known: set<int>, newItems: map<int, ProcessItem>,
                                    dialog: Option<ProcessDialog>, poppedOver: Option<int>)
    requires UniquePids(store)
    ensures var p := UpdatePass(store, known, StartPass(newItems, dialog, poppedOver));
      p.remaining == newItems - PidsOf(store) && p.toRemove == PidsOf(store) - known
    decreases |store|
  {
    if |store| > 0 {
      var init := store[..|store| - 1];
      var e := store[|store| - 1];
      assert UniquePids(init);
      PassSets(init, known, newItems, dialog, poppedOver);
      PidsOfSnoc(init, e);
      assert init + [e] == store;
    }
  }

  /** With distinct pids, the last row's pid is not among the earlier rows'. */
  lemma UniqueLast(store: seq<ProcessEntry>)
    requires |store| > 0 && UniquePids(store)
    ensures store[|store| - 1].pid !in PidsOf(store[..|store| - 1])
  {
  }

  lemma PidsOfSnoc(init: seq<ProcessEntry>, e: ProcessEntry)
    ensures PidsOf(init + [e]) == PidsOf(init) + {e.pid}
  {
    var s := init + [e];
    assert forall i :: 0 <= i < |init| ==> s[i] == init[i];
    assert s[|init|] == e;
  }

  /** A row survives `retain` exactly when its pid is not marked, and the order is kept. */
  lemma {:induction false} RetainedKeeps(entries: seq<ProcessEntry>, toRemove: set<int>, e: ProcessEntry)
    ensures e in Retained(entries, toRemove) <==> e in entries && e.pid !in toRemove
    decreases |entries|
  {
    if |entries| > 0 {
      RetainedKeeps(entries[..|entries| - 1], toRemove, e);
      assert entries == entries[..|entries| - 1] + [entries[|entries| - 1]];
    }
  }

  /** `retain` keeps exactly the pids not marked. */
  lemma {:induction false} RetainedPids(entries: seq<ProcessEntry>, toRemove: set<int>)
    ensures PidsOf(Retained(entries, toRemove)) == PidsOf(entries) - toRemove
    decreases |entries|
  {
    if |entries| > 0 {
      var init := entries[..|entries| - 1];
      var e := entries[|entries| - 1];
      RetainedPids(init, toRemove);
      PidsOfSnoc(init, e);
      assert init + [e] == entries;
      if e.pid !in toRemove {
        PidsOfSnoc(Retained(init, toRemove), e);
      }
    }
  }

  /** Retaining rows with distinct pids keeps them distinct. */
  lemma {:induction false} RetainedUnique(entries: seq<ProcessEntry>, toRemove: set<int>)
    requires UniquePids(entries)
    ensures UniquePids(Retained(entries, toRemove))
    decreases |entries|
  {
    if |entries| > 0 {
      var init := entries[..|entries| - 1];
      var e := entries[|entries| - 1];
      assert UniquePids(init);
      RetainedUnique(init, toRemove);
      var rest := Retained(init, toRemove);
      if e.pid !in toRemove {
        RetainedPids(init, toRemove);
        UniqueLast(entries);
        assert forall i :: 0 <= i < |rest| ==> rest[i].pid in PidsOf(rest);
      }
    }
  }

  /** The dialog after the pass: closed when its pid is among the rows and no longer known,
      showing the fresh item when its pid is among the rows, known, and has one. */
  lemma PassDialog(store: seq<ProcessEntry>, known: set<int>, newItems: map<int, ProcessItem>,
                   d: ProcessDialog, poppedOver: Option<int>)
    requires UniquePids(store)
    requires d.pid in PidsOf(store)
    ensures var p := UpdatePass(store, known, StartPass(newItems, Some(d), poppedOver));
      p.dialog.Some? && p.dialog.value.pid == d.pid &&
      (d.pid !in known ==> !p.dialog.value.open && p.dialog.value.shown == d.shown) &&
      (d.pid in known && d.pid in newItems ==> p.dialog.value == d.(shown := newItems[d.pid]))
  {
    var i :| 0 <= i < |store| && store[i].pid == d.pid;
    var start := StartPass(newItems, Some(d), poppedOver);
    DialogBefore(store, known, newItems, d, poppedOver, i);
    var before := UpdatePass(store[..i], known, start);
    DialogRow(before, store[i], known, d);
    assert store[..i + 1][..i] == store[..i];
    OtherRowsKeepDialog(store, known, start, i + 1);
  }

  /** The dialog's own row closes it when the pid is gone and otherwise shows the row's fresh
      item, if there is one. */
  lemma DialogRow(st: Pass, e: ProcessEntry, known: set<int>, d: ProcessDialog)
    requires st.dialog == Some(d) && st.holdsDialog && e.pid == d.pid
    ensures var q := Step(st, e, known);
      q.dialog.Some? && q.dialog.value.pid == d.pid &&
      (d.pid !in known ==> q.dialog.value == d.(open := false)) &&
      (d.pid in known && d.pid in st.remaining ==> q.dialog.value == d.(shown := st.remaining[d.pid]))
  {
  }

  /** Before the dialog's row the pass holds the dialog unchanged and has not consumed its
      item. */
  lemma {:induction false} DialogBefore(store: seq<ProcessEntry>, known: set<int>, newItems: map<int, ProcessItem>,
                                        d: ProcessDialog, poppedOver: Option<int>, n: nat)
    requires n <= |store| && forall j :: 0 <= j < n ==> store[j].pid != d.pid
    ensures var p := UpdatePass(store[..n], known, StartPass(newItems, Some(d), poppedOver));
      p.dialog == Some(d) && p.holdsDialog && (d.pid in newItems ==> d.pid in p.remaining && p.remaining[d.pid] == newItems[d.pid])
    decreases n
  {
    if n > 0 {
      DialogBefore(store, known, newItems, d, poppedOver, n - 1);
      assert store[..n][..n - 1] == store[..n - 1];
    }
  }

  /** Rows of other pids leave the dialog alone. */
  lemma {:induction false} OtherRowsKeepDialog(store: seq<ProcessEntry>, known: set<int>, start: Pass, n: nat)
    requires n <= |store|
    requires UpdatePass(store[..n], known, start).dialog.Some?
    requires forall j :: n <= j < |store| ==> store[j].pid != UpdatePass(store[..n], known, start).dialog.value.pid
    ensures UpdatePass(store, known, start).dialog == UpdatePass(store[..n], known, start).dialog
    decreases |store| - n
  {
    if n < |store| {
      assert store[..n + 1][..n] == store[..n];
      OtherRowsKeepDialog(store, known, start, n + 1);
    } else {
      assert store[..n] == store;
    }
  }

  /** The rows kept by the pass are those of pids `AppsContext` still has. */
  lemma KeptRowsAreKnown(store: seq<ProcessEntry>, known: set<int>, newItems: map<int, ProcessItem>,
                         dialog: Option<ProcessDialog>, poppedOver: Option<int>)
    requires UniquePids(store)
    ensures var p := UpdatePass(store, known, StartPass(newItems, dialog, poppedOver));
      UniquePids(Retained(p.entries, p.toRemove)) &&
      PidsOf(Retained(p.entries, p.toRemove)) == PidsOf(store) * known
  {
    var p := UpdatePass(store, known, StartPass(newItems, dialog, poppedOver));
    PassEntries(store, known, newItems, dialog, poppedOver);
    PassSets(store, known, newItems, dialog, poppedOver);
    assert UniquePids(p.entries);
    assert PidsOf(p.entries) == PidsOf(store) by {
      assert forall i :: 0 <= i < |store| ==> p.entries[i].pid == store[i].pid;
    }
    RetainedUnique(p.entries, p.toRemove);
    RetainedPids(p.entries, p.toRemove);
  }

  // ---------------------------------------------------------------- user names

  /** The user name `get_user_name_by_uid` gives: the cached one, else the account's name,
      else "root". `users` stands for the system's user database. */
  function CachedName(cache: map<nat, string>, users: nat -> Option<string>, uid: nat): string
  {
    if uid in cache then cache[uid]
    else match users(uid)
      case None => "root"
      case Some(name) => name
  }

  /** `after` is `before` with some names looked up and added; no cached name changes. */
  predicate CacheExtends(before: map<nat, string>, after: map<nat, string>, users: nat -> Option<string>)
  {
    before.Keys <= after.Keys && forall uid :: uid in after ==> after[uid] == CachedName(before, users, uid)
  }

  /** Extending the cache does not change any name it gives: the first lookup of a uid is the
      one every later call sees. */
  lemma CacheExtendsKeepsNames(before: map<nat, string>, after: map<nat, string>, users: nat -> Option<string>,
                               later: nat -> Option<string>, uid: nat)
    requires CacheExtends(before, after, users)
    requires uid in after
    ensures CachedName(after, later, uid) == CachedName(before, users, uid)
  {
  }

  /** An unknown uid is shown as "root" and a known account by its name. */
  lemma CachedNameOfAccount(cache: map<nat, string>, users: nat -> Option<string>, uid: nat)
    requires uid !in cache
    ensures users(uid).None? ==> CachedName(cache, users, uid) == "root"
    ensures users(uid).Some? ==> CachedName(cache, users, uid) == users(uid).value
  {
  }

  // ---------------------------------------------------------------- the page

  /** The rows added so far for the items of pids `done`: one row per pid, under that pid,
      with the item and its user's name. */
  predicate AddedFor(added: seq<ProcessEntry>, items: map<int, ProcessItem>, done: set<int>, cache: map<nat, string>,
                     users: nat -> Option<string>)
  {
    UniquePids(added) && PidsOf(added) == done &&
    forall j :: 0 <= j < |added| ==>
      added[j].pid in items && added[j] == ProcessEntry(added[j].pid, items[added[j].pid], CachedName(cache, users, items[added[j].pid].uid))
  }

  /** The rows added for the items no row took: one per item. */
  predicate AddedRows(added: seq<ProcessEntry>, items: map<int, ProcessItem>, cache: map<nat, string>,
                      users: nat -> Option<string>)
  {
    AddedFor(added, items, items.Keys, cache, users)
  }

  /** The uids of the items of pids `pids`. */
  function UidsIn(items: map<int, ProcessItem>, pids: set<int>): set<nat>
  {
    set pid | pid in items && pid in pids :: items[pid].uid
  }

  function UidsOf(items: map<int, ProcessItem>): set<nat>
  {
    UidsIn(items, items.Keys)
  }

  /** Appending the row of one more item keeps `AddedFor`. */
  lemma AddRow(added: seq<ProcessEntry>, items: map<int, ProcessItem>, done: set<int>, pid: int,
               cache: map<nat, string>, users: nat -> Option<string>, name: string)
    requires pid in items && pid !in done
    requires AddedFor(added, items, done, cache, users)
    requires name == CachedName(cache, users, items[pid].uid)
    ensures AddedFor(added + [ProcessEntry(pid, items[pid], name)], items, done + {pid}, cache, users)
    ensures UidsIn(items, done + {pid}) == UidsIn(items, done) + {items[pid].uid}
  {
    var row := ProcessEntry(pid, items[pid], name);
    var added' := added + [row];
    PidsOfSnoc(added, row);
    assert forall j :: 0 <= j < |added| ==> added'[j] == added[j];
  }

  /** The text of the page's tab. */
  function TabUsage(rows: nat): string
  {
    I18n.Freplaced("Running Processes: {}", [ToDigits(rows, 10)])
  }

  const TabPrefix := "Running Processes: "

  /** The tab reads "Running Processes: " and the number of rows in decimal. */
  lemma TabUsageText(rows: nat)
    ensures TabUsage(rows) == TabPrefix + ToDigits(rows, 10)
  {
    assert '{' !in TabPrefix by {
      var a, b := "Running ", "Processes: ";
      assert '{' !in a && '{' !in b;
      assert TabPrefix == a + b;
    }
    assert TabPrefix + I18n.Placeholder + "" == "Running Processes: {}";
    I18n.FreplaceSingle(TabPrefix, ToDigits(rows, 10), "");
  }

  /** The number on the tab reads back as the number of rows. */
  lemma TabUsageCount(rows: nat)
    ensures StartsWith(TabUsage(rows), TabPrefix)
    ensures ParseUnsigned(TabUsage(rows)[|TabPrefix|..], 10, rows + 1) == Some(rows)
  {
    TabUsageText(rows);
    assert TabUsage(rows)[|TabPrefix|..] == ToDigits(rows, 10);
    ParseDecimal(rows, rows + 1);
  }

  /** The page (`ResProcesses`): the list store, the open information dialog, the process whose
      popover menu is up, the user-name cache and the tab's text. */
  class ResProcesses {
    var store: seq<ProcessEntry>
    var openDialog: Option<ProcessDialog>
    var poppedOverProcess: Option<int>
    var usernameCache: map<nat, string>
    var tabUsageString: string

    constructor ()
      ensures store == [] && openDialog == None && poppedOverProcess == None
      ensures usernameCache == map[] && tabUsageString == ""
    {
      store := [];
      openDialog := None;
      poppedOverProcess := None;
      usernameCache := map[];
      tabUsageString := "";
    }

    /** `get_user_name_by_uid`: the cached name, else the looked-up one, which is cached. */
    method GetUserNameByUid(uid: nat, users: nat -> Option<string>) returns (name: string)
      modifies this
      ensures name == CachedName(old(usernameCache), users, uid)
      ensures usernameCache == old(usernameCache)[uid := name]
      ensures store == old(store) && openDialog == old(openDialog) && poppedOverProcess == old(poppedOverProcess)
      ensures tabUsageString == old(tabUsageString)
    {
      if uid in usernameCache {
        name := usernameCache[uid];
        assert usernameCache[uid := name] == usernameCache;
      } else {
        name := match users(uid)
          case None => "root"
          case Some(n) => n;
        usernameCache := usernameCache[uid := name];
      }
    }

    /** `open_information_dialog`: the dialog shows the item with its user's name. */
    method OpenInformationDialog(item: ProcessItem, users: nat -> Option<string>)
      modifies this
      ensures openDialog == Some(ProcessDialog(item.pid, item, CachedName(old(usernameCache), users, item.uid), true))
      ensures usernameCache == old(usernameCache)[item.uid := CachedName(old(usernameCache), users, item.uid)]
      ensures store == old(store) && poppedOverProcess == old(poppedOverProcess) && tabUsageString == old(tabUsageString)
    {
      var name := GetUserNameByUid(item.uid, users);
      openDialog := Some(ProcessDialog(item.pid, item, name, true));
    }

    /** `refresh_processes_list`. `known` is the set of pids `AppsContext::get_process` finds
        and `newItems` what `process_items` gives, by pid. The rows are updated by the pass,
        the marked ones dropped, one row appended per item no row took (in the map's order,
        which is arbitrary), and the tab shows the new count. */
    method RefreshProcessesList(known: set<int>, newItems: map<int, ProcessItem>, users: nat -> Option<string>)
      modifies this
      ensures var pass := UpdatePass(old(store), known, StartPass(newItems, old(openDialog), old(poppedOverProcess)));
        var kept := Retained(pass.entries, pass.toRemove);
        |kept| <= |store| && store[..|kept|] == kept &&
        AddedRows(store[|kept|..], pass.remaining, old(usernameCache), users) &&
        openDialog == pass.dialog && poppedOverProcess == pass.poppedOver &&
        CacheExtends(old(usernameCache), usernameCache, users) &&
        usernameCache.Keys == old(usernameCache).Keys + UidsOf(pass.remaining)
      ensures tabUsageString == TabUsage(|store|)
    {
      var entries, remaining, toRemove := UpdateRows(known, newItems);
      var kept := Retained(entries, toRemove);
      var added := AppendRows(remaining, users);
      store := kept + added;
      assert store[..|kept|] == kept && store[|kept|..] == added;
      tabUsageString := TabUsage(|store|);
    }

    /** The pass over the rows: the dialog and the popover are changed in place, the updated
        rows, the unconsumed items and the pids to remove are returned. */
    method UpdateRows(known: set<int>, newItems: map<int, ProcessItem>)
      returns (entries: seq<ProcessEntry>, remaining: map<int, ProcessItem>, toRemove: set<int>)
      modifies this
      ensures var pass := UpdatePass(old(store), known, StartPass(newItems, old(openDialog), old(poppedOverProcess)));
        entries == pass.entries && remaining == pass.remaining && toRemove == pass.toRemove &&
        openDialog == pass.dialog && poppedOverProcess == pass.poppedOver
      ensures store == old(store) && usernameCache == old(usernameCache) && tabUsageString == old(tabUsageString)
    {
      var start := StartPass(newItems, openDialog, poppedOverProcess);
      var rows := store;
      entries := [];
      remaining := newItems;
      toRemove := {};
      var dialog := openDialog;
      var holds := dialog.Some?;
      var popped := poppedOverProcess;
      for i := 0 to |rows|
        invariant UpdatePass(rows[..i], known, start) == Pass(entries, remaining, toRemove, dialog, holds, popped)
      {
        assert rows[..i + 1][..i] == rows[..i];
        var e := rows[i];
        if e.pid !in known {
          if holds && dialog.Some? && dialog.value.pid == e.pid {
            dialog := Some(dialog.value.(open := false));
            holds := false;
          }
          popped := None;
          toRemove := toRemove + {e.pid};
        }
        if e.pid in remaining {
          var item := remaining[e.pid];
          remaining := remaining - {e.pid};
          if holds && dialog.Some? && dialog.value.pid == e.pid {
            dialog := Some(dialog.value.(shown := item));
          }
          e := e.(item := item);
        }
        entries := entries + [e];
      }
      assert rows[..|rows|] == rows;
      openDialog := dialog;
      poppedOverProcess := popped;
    }

    /** The drain of the unconsumed items: one new row each, in an arbitrary order, its user
        name looked up through the cache. */
    method AppendRows(remaining: map<int, ProcessItem>, users: nat -> Option<string>) returns (added: seq<ProcessEntry>)
      modifies this
      ensures AddedRows(added, remaining, old(usernameCache), users)
      ensures CacheExtends(old(usernameCache), usernameCache, users)
      ensures usernameCache.Keys == old(usernameCache).Keys + UidsOf(remaining)
      ensures store == old(store) && openDialog == old(openDialog) && poppedOverProcess == old(poppedOverProcess)
      ensures tabUsageString == old(tabUsageString)
    {
      var cache0 := usernameCache;
      var pending := remaining.Keys;
      ghost var done: set<int> := {};
      added := [];
      while exists pid :: pid in pending
        invariant pending !! done && pending + done == remaining.Keys
        invariant AddedFor(added, remaining, done, cache0, users)
        invariant CacheExtends(cache0, usernameCache, users)
        invariant usernameCache.Keys == cache0.Keys + UidsIn(remaining, done)
        invariant store == old(store) && openDialog == old(openDialog) && poppedOverProcess == old(poppedOverProcess)
        invariant tabUsageString == old(tabUsageString)
        decreases pending
      {
        var pid :| pid in pending;
        var item := remaining[pid];
        var name := GetUserNameByUid(item.uid, users);
        assert name == CachedName(cache0, users, item.uid);
        AddRow(added, remaining, done, pid, cache0, users, name);
        added := added + [ProcessEntry(pid, item, name)];
        pending := pending - {pid};
        done := done + {pid};
      }
      assert done == remaining.Keys by {
        assert forall pid :: pid in remaining.Keys ==> pid in done;
      }
    }
  }

  /** Two runs of rows with distinct pids and no pid in common join into one. */
  lemma UniqueConcat(a: seq<ProcessEntry>, b: seq<ProcessEntry>)
    requires UniquePids(a) && UniquePids(b) && PidsOf(a) !! PidsOf(b)
    ensures UniquePids(a + b) && PidsOf(a + b) == PidsOf(a) + PidsOf(b)
  {
    var ab := a + b;
    assert forall i :: 0 <= i < |a| ==> ab[i] == a[i] && a[i].pid in PidsOf(a);
    assert forall i :: |a| <= i < |ab| ==> ab[i] == b[i - |a|] && b[i - |a|].pid in PidsOf(b);
    assert forall pid :: pid in PidsOf(b) ==> pid in PidsOf(ab) by {
      forall pid | pid in PidsOf(b) ensures pid in PidsOf(ab) {
        var j :| 0 <= j < |b| && b[j].pid == pid;
        assert ab[|a| + j] == b[j];
      }
    }
  }

  /** The invariant a refresh keeps: rows with distinct pids stay distinct, and afterwards
      there is a row for each old pid `AppsContext` still has and for each new item, and for
      nothing else. */
  lemma RefreshedRows(store: seq<ProcessEntry>, known: set<int>, newItems: map<int, ProcessItem>,
                      dialog: Option<ProcessDialog>, poppedOver: Option<int>, added: seq<ProcessEntry>,
                      cache: map<nat, string>, users: nat -> Option<string>)
    requires UniquePids(store)
    requires AddedRows(added, UpdatePass(store, known, StartPass(newItems, dialog, poppedOver)).remaining, cache, users)
    ensures var p := UpdatePass(store, known, StartPass(newItems, dialog, poppedOver));
      var rows := Retained(p.entries, p.toRemove) + added;
      UniquePids(rows) && PidsOf(rows) == (PidsOf(store) * known) + (newItems.Keys - PidsOf(store))
  {
    var p := UpdatePass(store, known, StartPass(newItems, dialog, poppedOver));
    KeptRowsAreKnown(store, known, newItems, dialog, poppedOver);
    PassSets(store, known, newItems, dialog, poppedOver);
    assert PidsOf(added) == newItems.Keys - PidsOf(store);
    UniqueConcat(Retained(p.entries, p.toRemove), added);
  }

  // ---------------------------------------------------------------- search and actions

  /** `search_filter`: with the search bar hidden every row shows; otherwise a row shows when
      its name or command line contains the search text, ignoring (ASCII) case. */
  function SearchFilter(revealed: bool, search: string, name: string, commandline: string): bool
  {
    !revealed || Contains(LowerStr(name), LowerStr(search)) || Contains(LowerStr(commandline), LowerStr(search))
  }

  /** A row whose name or command line has the search text in it is shown, in whatever case
      the text was typed. */
  lemma SearchFindsText(revealed: bool, typed: string, before: string, after: string, other: string)
    ensures SearchFilter(revealed, typed, before + LowerStr(typed) + after, other)
    ensures SearchFilter(revealed, typed, other, before + LowerStr(typed) + after)
  {
    var t := LowerStr(typed);
    LowerStrConcat(before + t, after);
    LowerStrConcat(before, t);
    LowerStrIdempotent(typed);
    ContainsPlaced(LowerStr(before), t, LowerStr(after));
  }

  /** With the search bar shown, a row is hidden when some character of the search text
      (lower-cased) occurs in neither its lower-cased name nor its command line. */
  lemma SearchHides(search: string, name: string, commandline: string, k: nat)
    requires k < |search|
    requires Lower(search[k]) !in LowerStr(name) && Lower(search[k]) !in LowerStr(commandline)
    ensures !SearchFilter(true, search, name, commandline)
  {
    NotContainsWithoutChar(LowerStr(name), LowerStr(search), k);
    NotContainsWithoutChar(LowerStr(commandline), LowerStr(search), k);
  }

  /** The filter does not depend on the case of the search text. */
  lemma SearchIgnoresCase(revealed: bool, search: string, name: string, commandline: string)
    ensures SearchFilter(revealed, LowerStr(search), name, commandline) == SearchFilter(revealed, search, name, commandline)
  {
    LowerStrIdempotent(search);
  }

  /** What `execute_process_action_dialog` leads to: whether a confirmation dialog is shown,
      and the `ManipulateProcess` action sent (signal, pid, display name), if any. `response`
      is the dialog's answer ("yes", or "no" for Cancel and closing). */
  datatype ActionOutcome = ActionOutcome(confirmationShown: bool, sent: Option<(Process.ProcessAction, int, string)>)

  function ExecuteProcessAction(item: ProcessItem, action: Process.ProcessAction, response: string): ActionOutcome
  {
    if action == Process.Cont then ActionOutcome(false, Some((action, item.pid, item.displayName)))
    else ActionOutcome(true, if response == "yes" then Some((action, item.pid, item.displayName)) else None)
  }

  /** Continuing a process is sent without asking; every other signal is asked for and sent
      only on "yes"; what is sent names the item's own pid. */
  lemma ActionNeedsConfirmation(item: ProcessItem, action: Process.ProcessAction, response: string)
    ensures ExecuteProcessAction(item, action, response).confirmationShown <==> action != Process.Cont
    ensures ExecuteProcessAction(item, action, response).sent.Some? <==> action == Process.Cont || response == "yes"
    ensures ExecuteProcessAction(item, action, response).sent.Some? ==>
      ExecuteProcessAction(item, action, response).sent.value == (action, item.pid, item.displayName)
  {
  }

  // ---------------------------------------------------------------- which pids are gone

  /** The pids the refresh treats as still there, as written: `get_process(pid).is_some()`.
      `AppsContext` keeps every process it has seen (a dead one only has `alive` cleared). */
  function KnownAsWritten(procs: map<int, AppGroups.Process>): (r: set<int>)
    ensures forall pid :: pid in r <==> pid in procs
  {
    procs.Keys
  }

  /** The pids of live processes, which is what removing "processes that don't exist anymore"
      needs. */
  function KnownAlive(procs: map<int, AppGroups.Process>): (r: set<int>)
    ensures forall pid :: pid in r <==> pid in procs && procs[pid].alive
  {
    set pid | pid in procs && procs[pid].alive
  }

  /** As written, marking the missing processes dead leaves the set of known pids as it was,
      so a row is never removed for a process that has died. */
  lemma DeadStaysKnownAsWritten(procs: map<int, AppGroups.Process>, seen: set<int>)
    ensures KnownAsWritten(AppGroups.MarkDead(procs, seen)) == KnownAsWritten(procs)
  {
  }

  /** A concrete case: a row for pid 7, whose process has died (and so has no fresh item).
      As written the row stays with its old item; with the live pids it is removed. */
  lemma DeadRowKeptAsWritten(row: ProcessEntry, p: AppGroups.Process)
    requires row.pid == 7 && !p.alive
    ensures var pass := UpdatePass([row], KnownAsWritten(map[7 := p]), StartPass(map[], None, None));
      Retained(pass.entries, pass.toRemove) == [row]
    ensures var pass := UpdatePass([row], KnownAlive(map[7 := p]), StartPass(map[], None, None));
      Retained(pass.entries, pass.toRemove) == []
  {
    assert [row][..0] == [];
    var start := StartPass(map[], None, None);
    var written := UpdatePass([row], KnownAsWritten(map[7 := p]), start);
    var known := KnownAsWritten(map[7 := p]);
    assert UpdatePass([row][..0], known, start) == start;
    assert written == Step(start, row, known);
    assert written.entries == [row] && written.toRemove == {};
    assert written.entries[..0] == [];
    var alive := UpdatePass([row], KnownAlive(map[7 := p]), start);
    assert 7 !in KnownAlive(map[7 := p]);
    var live := KnownAlive(map[7 := p]);
    assert UpdatePass([row][..0], live, start) == start;
    assert alive == Step(start, row, live);
    assert alive.entries == [row] && alive.toRemove == {7};
  }

  /** With the live pids, every row that stays belongs to a live process. */
  lemma KeptRowsAreAlive(store: seq<ProcessEntry>, procs: map<int, AppGroups.Process>, newItems: map<int, ProcessItem>,
                         dialog: Option<ProcessDialog>, poppedOver: Option<int>)
    requires UniquePids(store)
    ensures var p := UpdatePass(store, KnownAlive(procs), StartPass(newItems, dialog, poppedOver));
      forall pid :: pid in PidsOf(Retained(p.entries, p.toRemove)) ==> pid in procs && procs[pid].alive
  {
    KeptRowsAreKnown(store, KnownAlive(procs), newItems, dialog, poppedOver);
  }
}
