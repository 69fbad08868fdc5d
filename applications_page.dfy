/** The applications page (src/ui/pages/applications/mod.rs): the store of application rows
    reconciled with `AppsContext::app_items` on every refresh, the buttons' sensitivity, the
    search filter and the confirmation of signals. Rows are keyed by the application id; the
    "System Processes" row has none and is never removed. The widgets are not modelled. */
module ApplicationsPage {
  import opened Wrappers
  import opened Text
  import I18n
  import Process
  import AppGroups

  type AppItem = AppGroups.AppItem

  /** A row of the store: the id it was created with and the item it shows. */
  datatype AppEntry = AppEntry(id: Option<string>, item: AppItem)

  /** The information dialog: the id it was opened for, the item it shows, whether it is
      still open. */
  datatype AppDialog = AppDialog(id: Option<string>, shown: AppItem, open: bool)

  // ---------------------------------------------------------------- the update pass

  /** A row is dropped when it belongs to an application that no longer runs; the system row
      (no id) never is. `running` holds the ids of the running applications. */
  predicate Stopped(id: Option<string>, running: set<string>)
  {
    id.Some? && id.value !in running
  }

  /** The state of the pass over the store: the rows so far, the items not yet consumed, the
      ids to remove, the dialog, whether the pass still holds it (`dialog_opt`), and the id of
      the row whose popover is up. */
  datatype Pass = Pass(entries: seq<AppEntry>, remaining: map<Option<string>, AppItem>, toRemove: set<Option<string>>,
                       dialog: Option<AppDialog>, holdsDialog: bool, poppedOver: Option<Option<string>>)

  function StartPass(newItems: map<Option<string>, AppItem>, dialog: Option<AppDialog>,
                     poppedOver: Option<Option<string>>): Pass
  {
    Pass([], newItems, {}, dialog, dialog.Some?, poppedOver)
  }

  /** One row of the pass: the row of a stopped application is marked for removal (closing its
      dialog and clearing the popover); a row with a fresh item takes it, and so does its
      dialog while the pass holds it. */
  function Step(st: Pass, e: AppEntry, running: set<string>): Pass
  {
    var stopped := Stopped(e.id, running);
    var closes := stopped && st.holdsDialog && st.dialog.Some? && st.dialog.value.id == e.id;
    var dialog := if closes then Some(st.dialog.value.(open := false)) else st.dialog;
    var holds := st.holdsDialog && !closes;
    var popped := if stopped then None else st.poppedOver;
    var toRemove := if stopped then st.toRemove + {e.id} else st.toRemove;
    if e.id in st.remaining then
      var item := st.remaining[e.id];
      var shown := if holds && dialog.Some? && dialog.value.id == e.id then Some(dialog.value.(shown := item)) else dialog;
      Pass(st.entries + [e.(item := item)], st.remaining - {e.id}, toRemove, shown, holds, popped)
    else
      Pass(st.entries + [e], st.remaining, toRemove, dialog, holds, popped)
  }

  function UpdatePass(store: seq<AppEntry>, running: set<string>, start: Pass): Pass
    decreases |store|
  {
    if |store| == 0 then start
    else Step(UpdatePass(store[..|store| - 1], running, start), store[|store| - 1], running)
  }

  /** The rows whose id is not marked for removal, in order (`retain`). */
  function Retained(entries: seq<AppEntry>, toRemove: set<Option<string>>): (r: seq<AppEntry>)
    ensures |r| <= |entries|
    decreases |entries|
  {
    if |entries| == 0 then []
    else
      var rest := Retained(entries[..|entries| - 1], toRemove);
      if entries[|entries| - 1].id in toRemove then rest else rest + [entries[|entries| - 1]]
  }

  function IdsOf(store: seq<AppEntry>): set<Option<string>>
  {
    set i | 0 <= i < |store| :: store[i].id
  }

  predicate UniqueIds(store: seq<AppEntry>)
  {
    forall i, j :: 0 <= i < j < |store| ==> store[i].id != store[j].id
  }

  /** The ids of the rows of stopped applications. */
  function StoppedIds(ids: set<Option<string>>, running: set<string>): set<Option<string>>
  {
    set id | id in ids && Stopped(id, running)
  }

  lemma IdsOfSnoc(init: seq<AppEntry>, e: AppEntry)
    ensures IdsOf(init + [e]) == IdsOf(init) + {e.id}
  {
    var s := init + [e];
    assert forall i :: 0 <= i < |init| ==> s[i] == init[i];
    assert s[|init|] == e;
  }

  lemma UniqueLast(store: seq<AppEntry>)
    requires |store| > 0 && UniqueIds(store)
    ensures store[|store| - 1].id !in IdsOf(store[..|store| - 1])
  {
  }

  /** Over rows with distinct ids, the pass keeps the rows in place and in order and gives each
      row whose id has a fresh item that item. */
  lemma {:induction false} PassEntries(store: seq<AppEntry>, running: set<string>, newItems: map<Option<string>, AppItem>,
                                       dialog: Option<AppDialog>, poppedOver: Option<Option<string>>)
    requires UniqueIds(store)
    ensures var p := UpdatePass(store, running, StartPass(newItems, dialog, poppedOver));
      |p.entries| == |store| &&
      (forall i :: 0 <= i < |store| ==>
        p.entries[i] == (if store[i].id in newItems then store[i].(item := newItems[store[i].id]) else store[i]))
    decreases |store|
  {
    if |store| > 0 {
      var init := store[..|store| - 1];
      assert UniqueIds(init);
      PassEntries(init, running, newItems, dialog, poppedOver);
      PassSets(init, running, newItems, dialog, poppedOver);
      UniqueLast(store);
    }
  }

  /** Over rows with distinct ids, the pass consumes exactly the items of the rows' ids and
      marks exactly the rows of stopped applications. */
  lemma {:induction false} PassSets(store: seq<AppEntry>, running: set<string>, newItems: map<Option<string>, AppItem>,
                                    dialog: Option<AppDialog>, poppedOver: Option<Option<string>>)
    requires UniqueIds(store)
    ensures var p := UpdatePass(store, running, StartPass(newItems, dialog, poppedOver));
      p.remaining == newItems - IdsOf(store) && p.toRemove == StoppedIds(IdsOf(store), running)
    decreases |store|
  {
    if |store| > 0 {
      var init := store[..|store| - 1];
      var e := store[|store| - 1];
      assert UniqueIds(init);
      PassSets(init, running, newItems, dialog, poppedOver);
      IdsOfSnoc(init, e);
      assert init + [e] == store;
    }
  }

  /** `retain` keeps exactly the ids not marked. */
  lemma {:induction false} RetainedIds(entries: seq<AppEntry>, toRemove: set<Option<string>>)
    ensures IdsOf(Retained(entries, toRemove)) == IdsOf(entries) - toRemove
    decreases |entries|
  {
    if |entries| > 0 {
      var init := entries[..|entries| - 1];
      var e := entries[|entries| - 1];
      RetainedIds(init, toRemove);
      IdsOfSnoc(init, e);
      assert init + [e] == entries;
      if e.id !in toRemove {
        IdsOfSnoc(Retained(init, toRemove), e);
      }
    }
  }

  /** Retaining rows with distinct ids keeps them distinct. */
  lemma {:induction false} RetainedUnique(entries: seq<AppEntry>, toRemove: set<Option<string>>)
    requires UniqueIds(entries)
    ensures UniqueIds(Retained(entries, toRemove))
    decreases |entries|
  {
    if |entries| > 0 {
      var init := entries[..|entries| - 1];
      var e := entries[|entries| - 1];
      assert UniqueIds(init);
      RetainedUnique(init, toRemove);
      var rest := Retained(init, toRemove);
      if e.id !in toRemove {
        RetainedIds(init, toRemove);
        UniqueLast(entries);
        assert forall i :: 0 <= i < |rest| ==> rest[i].id in IdsOf(rest);
      }
    }
  }

  /** The dialog after the pass: closed when its row is among the rows and its application
      has stopped, showing the fresh item when its row is there, still runs and has one. */
  lemma PassDialog(store: seq<AppEntry>, running: set<string>, newItems: map<Option<string>, AppItem>,
                   d: AppDialog, poppedOver: Option<Option<string>>)
    requires UniqueIds(store)
    requires d.id in IdsOf(store)
    ensures var p := UpdatePass(store, running, StartPass(newItems, Some(d), poppedOver));
      p.dialog.Some? && p.dialog.value.id == d.id &&
      (Stopped(d.id, running) ==> !p.dialog.value.open && p.dialog.value.shown == d.shown) &&
      (!Stopped(d.id, running) && d.id in newItems ==> p.dialog.value == d.(shown := newItems[d.id]))
  {
    var i :| 0 <= i < |store| && store[i].id == d.id;
    var start := StartPass(newItems, Some(d), poppedOver);
    DialogBefore(store, running, newItems, d, poppedOver, i);
    var before := UpdatePass(store[..i], running, start);
    DialogRow(before, store[i], running, d);
    assert store[..i + 1][..i] == store[..i];
    OtherRowsKeepDialog(store, running, start, i + 1);
  }

  /** The dialog's own row closes it when the application has stopped and otherwise shows the row's fresh
      item, if there is one. */
  lemma DialogRow(st: Pass, e: AppEntry, running: set<string>, d: AppDialog)
    requires st.dialog == Some(d) && st.holdsDialog && e.id == d.id
    ensures var q := Step(st, e, running);
      q.dialog.Some? && q.dialog.value.id == d.id &&
      (Stopped(d.id, running) ==> q.dialog.value == d.(open := false)) &&
      (!Stopped(d.id, running) && d.id in st.remaining ==> q.dialog.value == d.(shown := st.remaining[d.id]))
  {
  }

  /** Before the dialog's row the pass holds the dialog unchanged and has not consumed its
      item. */
  lemma {:induction false} DialogBefore(store: seq<AppEntry>, running: set<string>, newItems: map<Option<string>, AppItem>,
                                        d: AppDialog, poppedOver: Option<Option<string>>, n: nat)
    requires n <= |store| && forall j :: 0 <= j < n ==> store[j].id != d.id
    ensures var p := UpdatePass(store[..n], running, StartPass(newItems, Some(d), poppedOver));
      p.dialog == Some(d) && p.holdsDialog && (d.id in newItems ==> d.id in p.remaining && p.remaining[d.id] == newItems[d.id])
    decreases n
  {
    if n > 0 {
      DialogBefore(store, running, newItems, d, poppedOver, n - 1);
      assert store[..n][..n - 1] == store[..n - 1];
    }
  }

  /** Rows of other ids leave the dialog alone. */
  lemma {:induction false} OtherRowsKeepDialog(store: seq<AppEntry>, running: set<string>, start: Pass, n: nat)
    requires n <= |store|
    requires UpdatePass(store[..n], running, start).dialog.Some?
    requires forall j :: n <= j < |store| ==> store[j].id != UpdatePass(store[..n], running, start).dialog.value.id
    ensures UpdatePass(store, running, start).dialog == UpdatePass(store[..n], running, start).dialog
    decreases |store| - n
  {
    if n < |store| {
      assert store[..n + 1][..n] == store[..n];
      OtherRowsKeepDialog(store, running, start, n + 1);
    } else {
      assert store[..n] == store;
    }
  }

  /** The rows kept by the pass are those of running applications and the system row. */
  lemma KeptRowsRun(store: seq<AppEntry>, running: set<string>, newItems: map<Option<string>, AppItem>,
                    dialog: Option<AppDialog>, poppedOver: Option<Option<string>>)
    requires UniqueIds(store)
    ensures var p := UpdatePass(store, running, StartPass(newItems, dialog, poppedOver));
      UniqueIds(Retained(p.entries, p.toRemove)) &&
      IdsOf(Retained(p.entries, p.toRemove)) == IdsOf(store) - StoppedIds(IdsOf(store), running)
  {
    var p := UpdatePass(store, running, StartPass(newItems, dialog, poppedOver));
    PassEntries(store, running, newItems, dialog, poppedOver);
    PassSets(store, running, newItems, dialog, poppedOver);
    assert UniqueIds(p.entries);
    assert IdsOf(p.entries) == IdsOf(store) by {
      assert forall i :: 0 <= i < |store| ==> p.entries[i].id == store[i].id;
    }
    RetainedUnique(p.entries, p.toRemove);
    RetainedIds(p.entries, p.toRemove);
  }

  lemma UniqueConcat(a: seq<AppEntry>, b: seq<AppEntry>)
    requires UniqueIds(a) && UniqueIds(b) && IdsOf(a) !! IdsOf(b)
    ensures UniqueIds(a + b) && IdsOf(a + b) == IdsOf(a) + IdsOf(b)
  {
    var ab := a + b;
    assert forall i :: 0 <= i < |a| ==> ab[i] == a[i] && a[i].id in IdsOf(a);
    assert forall i :: |a| <= i < |ab| ==> ab[i] == b[i - |a|] && b[i - |a|].id in IdsOf(b);
    assert forall id :: id in IdsOf(b) ==> id in IdsOf(ab) by {
      forall id | id in IdsOf(b) ensures id in IdsOf(ab) {
        var j :| 0 <= j < |b| && b[j].id == id;
        assert ab[|a| + j] == b[j];
      }
    }
  }

  /** The rows appended for the items no row took: one per item, under its id. */
  predicate AddedFor(added: seq<AppEntry>, items: map<Option<string>, AppItem>, done: set<Option<string>>)
  {
    UniqueIds(added) && IdsOf(added) == done &&
    forall j :: 0 <= j < |added| ==> added[j].id in items && added[j].item == items[added[j].id]
  }

  lemma AddRow(added: seq<AppEntry>, items: map<Option<string>, AppItem>, done: set<Option<string>>, id: Option<string>)
    requires id in items && id !in done && AddedFor(added, items, done)
    ensures AddedFor(added + [AppEntry(id, items[id])], items, done + {id})
  {
    var row := AppEntry(id, items[id]);
    IdsOfSnoc(added, row);
    assert forall j :: 0 <= j < |added| ==> (added + [row])[j] == added[j];
  }

  /** The invariant a refresh keeps: the rows' ids stay distinct; afterwards there is a row for
      each old id except the stopped applications', and one for each new item; and when the
      items include the system row (`app_items` always does), so does the store. */
  lemma RefreshedRows(store: seq<AppEntry>, running: set<string>, newItems: map<Option<string>, AppItem>,
                      dialog: Option<AppDialog>, poppedOver: Option<Option<string>>, added: seq<AppEntry>)
    requires UniqueIds(store)
    requires var p := UpdatePass(store, running, StartPass(newItems, dialog, poppedOver));
      AddedFor(added, p.remaining, p.remaining.Keys)
    ensures var p := UpdatePass(store, running, StartPass(newItems, dialog, poppedOver));
      var rows := Retained(p.entries, p.toRemove) + added;
      UniqueIds(rows) &&
      IdsOf(rows) == (IdsOf(store) - StoppedIds(IdsOf(store), running)) + (newItems.Keys - IdsOf(store)) &&
      (None in newItems ==> None in IdsOf(rows))
  {
    var p := UpdatePass(store, running, StartPass(newItems, dialog, poppedOver));
    KeptRowsRun(store, running, newItems, dialog, poppedOver);
    PassSets(store, running, newItems, dialog, poppedOver);
    assert IdsOf(added) == newItems.Keys - IdsOf(store);
    UniqueConcat(Retained(p.entries, p.toRemove), added);
    assert None !in StoppedIds(IdsOf(store), running);
  }

  // ---------------------------------------------------------------- the tab

  const TabPrefix := "Running Apps: "

  /** The rows counted on the tab: all but one (the system row), as a `u32` subtraction, which
      wraps around on an empty store in a release build. */
  function CountedRows(rows: nat): (r: nat)
    ensures r < 0x1_0000_0000
    ensures 0 < rows <= 0x1_0000_0000 ==> r == rows - 1
  {
    (rows + 0xFFFF_FFFF) % 0x1_0000_0000
  }

  function TabUsage(rows: nat): string
  {
    I18n.Freplaced("Running Apps: {}", [ToDigits(CountedRows(rows), 10)])
  }

  lemma TabUsageText(rows: nat)
    ensures TabUsage(rows) == TabPrefix + ToDigits(CountedRows(rows), 10)
  {
    assert '{' !in TabPrefix by {
      var a, b := "Running ", "Apps: ";
      assert '{' !in a && '{' !in b;
      assert TabPrefix == a + b;
    }
    assert TabPrefix + I18n.Placeholder + "" == "Running Apps: {}";
    I18n.FreplaceSingle(TabPrefix, ToDigits(CountedRows(rows), 10), "");
  }

  /** Rows with distinct ids are as many as their ids. */
  lemma {:induction false} UniqueCount(store: seq<AppEntry>)
    requires UniqueIds(store)
    ensures |IdsOf(store)| == |store|
    decreases |store|
  {
    if |store| > 0 {
      var init := store[..|store| - 1];
      assert UniqueIds(init);
      UniqueCount(init);
      UniqueLast(store);
      IdsOfSnoc(init, store[|store| - 1]);
      assert init + [store[|store| - 1]] == store;
    }
  }

  /** With the system row present among rows of distinct ids, the tab counts exactly the
      applications. */
  lemma TabCountsApps(store: seq<AppEntry>)
    requires UniqueIds(store) && None in IdsOf(store) && |store| <= 0x1_0000_0000
    ensures TabUsage(|store|) == TabPrefix + ToDigits(|IdsOf(store) - {None}|, 10)
  {
    UniqueCount(store);
    TabUsageText(|store|);
    var apps := IdsOf(store) - {None};
    assert IdsOf(store) == apps + {None};
    assert |IdsOf(store)| == |apps| + 1;
    assert CountedRows(|store|) == |apps|;
  }

  // ---------------------------------------------------------------- the page

  /** The page (`ResApplications`): the list store, the open information dialog, the row
      whose popover menu is up and the tab's text. */
  class ResApplications {
    var store: seq<AppEntry>
    var openDialog: Option<AppDialog>
    var poppedOverApp: Option<Option<string>>
    var tabUsageString: string

    constructor ()
      ensures store == [] && openDialog == None && poppedOverApp == None && tabUsageString == ""
    {
      store := [];
      openDialog := None;
      poppedOverApp := None;
      tabUsageString := "";
    }

    /** `refresh_apps_list`. `apps` maps each installed application's id to whether it runs
        (`get_app(id).unwrap().is_running()`, so every id in the store must be installed) and
        `newItems` is what `app_items` gives, by id. */
    method RefreshAppsList(apps: map<string, bool>, newItems: map<Option<string>, AppItem>)
      requires forall i :: 0 <= i < |store| && store[i].id.Some? ==> store[i].id.value in apps
      modifies this
      ensures var running := set id | id in apps && apps[id];
        var pass := UpdatePass(old(store), running, StartPass(newItems, old(openDialog), old(poppedOverApp)));
        var kept := Retained(pass.entries, pass.toRemove);
        |kept| <= |store| && store[..|kept|] == kept &&
        AddedFor(store[|kept|..], pass.remaining, pass.remaining.Keys) &&
        openDialog == pass.dialog && poppedOverApp == pass.poppedOver
      ensures tabUsageString == TabUsage(|store|)
    {
      var running := set id | id in apps && apps[id];
      var entries, remaining, toRemove := UpdateRows(apps, running, newItems);
      var kept := Retained(entries, toRemove);
      var added := AppendRows(remaining);
      store := kept + added;
      assert store[..|kept|] == kept && store[|kept|..] == added;
      tabUsageString := TabUsage(|store|);
    }

    /** The pass over the rows, asking `apps` whether each row's application still runs. */
    method UpdateRows(apps: map<string, bool>, ghost running: set<string>, newItems: map<Option<string>, AppItem>)
      returns (entries: seq<AppEntry>, remaining: map<Option<string>, AppItem>, toRemove: set<Option<string>>)
      requires forall i :: 0 <= i < |store| && store[i].id.Some? ==> store[i].id.value in apps
      requires running == set id | id in apps && apps[id]
      modifies this
      ensures var pass := UpdatePass(old(store), running, StartPass(newItems, old(openDialog), old(poppedOverApp)));
        entries == pass.entries && remaining == pass.remaining && toRemove == pass.toRemove &&
        openDialog == pass.dialog && poppedOverApp == pass.poppedOver
      ensures store == old(store) && tabUsageString == old(tabUsageString)
    {
      var start := StartPass(newItems, openDialog, poppedOverApp);
      var rows := store;
      entries := [];
      remaining := newItems;
      toRemove := {};
      var dialog := openDialog;
      var holds := dialog.Some?;
      var popped := poppedOverApp;
      for i := 0 to |rows|
        invariant UpdatePass(rows[..i], running, start) == Pass(entries, remaining, toRemove, dialog, holds, popped)
      {
        assert rows[..i + 1][..i] == rows[..i];
        var e := rows[i];
        if e.id.Some? && !apps[e.id.value] {
          if holds && dialog.Some? && dialog.value.id == e.id {
            dialog := Some(dialog.value.(open := false));
            holds := false;
          }
          popped := None;
          toRemove := toRemove + {e.id};
        }
        if e.id in remaining {
          var item := remaining[e.id];
          remaining := remaining - {e.id};
          if holds && dialog.Some? && dialog.value.id == e.id {
            dialog := Some(dialog.value.(shown := item));
          }
          e := e.(item := item);
        }
        entries := entries + [e];
      }
      assert rows[..|rows|] == rows;
      openDialog := dialog;
      poppedOverApp := popped;
    }

    /** The drain of the unconsumed items, in an arbitrary order: one new row each. */
    method AppendRows(remaining: map<Option<string>, AppItem>) returns (added: seq<AppEntry>)
      ensures AddedFor(added, remaining, remaining.Keys)
    {
      var pending := remaining.Keys;
      ghost var done: set<Option<string>> := {};
      added := [];
      while exists id :: id in pending
        invariant pending !! done && pending + done == remaining.Keys
        invariant AddedFor(added, remaining, done)
        decreases pending
      {
        var id :| id in pending;
        AddRow(added, remaining, done, id);
        added := added + [AppEntry(id, remaining[id])];
        pending := pending - {id};
        done := done + {id};
      }
      assert done == remaining.Keys by {
        assert forall id :: id in remaining.Keys ==> id in done;
      }
    }
  }

  // ---------------------------------------------------------------- selection and search

  /** The sensitivity of the information and end buttons for the selected row's id (`None`
      when nothing is selected): information for any row, ending only for an application. */
  datatype Buttons = Buttons(information: bool, endApplication: bool)

  function SelectionButtons(selected: Option<Option<string>>): (b: Buttons)
    ensures b.endApplication ==> b.information
  {
    Buttons(selected.Some?, selected.Some? && selected.value.Some?)
  }

  /** The system row can be inspected but not ended; an application row can be both. */
  lemma ButtonsForRows(id: string)
    ensures SelectionButtons(Some(None)) == Buttons(true, false)
    ensures SelectionButtons(Some(Some(id))) == Buttons(true, true)
    ensures SelectionButtons(None) == Buttons(false, false)
  {
  }

  /** `search_filter`: with the search bar hidden every row shows; otherwise a row shows when
      its name, its id or its description contains the search text, ignoring (ASCII) case. */
  function SearchFilter(revealed: bool, search: string, item: AppItem): bool
  {
    var s := LowerStr(search);
    !revealed || Contains(LowerStr(item.displayName), s)
      || (item.id.Some? && Contains(LowerStr(item.id.value), s))
      || Contains(LowerStr(item.description.UnwrapOr("")), s)
  }

  /** An application whose name, id or description has the search text in it is shown, in
      whatever case the text was typed. */
  lemma SearchFindsApp(revealed: bool, typed: string, before: string, after: string, item: AppItem)
    requires item.displayName == before + LowerStr(typed) + after
      || item.id == Some(before + LowerStr(typed) + after)
      || item.description == Some(before + LowerStr(typed) + after)
    ensures SearchFilter(revealed, typed, item)
  {
    var t := LowerStr(typed);
    LowerStrConcat(before + t, after);
    LowerStrConcat(before, t);
    LowerStrIdempotent(typed);
    ContainsPlaced(LowerStr(before), t, LowerStr(after));
  }

  /** With the search bar shown, the system row (no id, no description) is hidden when some
      character of the search text occurs nowhere in its lower-cased name. */
  lemma SearchHidesSystemRow(search: string, item: AppItem, k: nat)
    requires item.id.None? && item.description.None?
    requires k < |search| && Lower(search[k]) !in LowerStr(item.displayName)
    ensures !SearchFilter(true, search, item)
  {
    NotContainsWithoutChar(LowerStr(item.displayName), LowerStr(search), k);
    NotContainsWithoutChar(LowerStr(""), LowerStr(search), k);
  }

  // ---------------------------------------------------------------- signals

  /** `get_action_name`: the dialog's heading for an action on an application. */
  function ActionName(action: Process.ProcessAction, name: string): string
  {
    match action
    case Term => I18n.Freplaced("End {}?", [name])
    case Stop => I18n.Freplaced("Halt {}?", [name])
    case Kill => I18n.Freplaced("Kill {}?", [name])
    case Cont => I18n.Freplaced("Continue {}?", [name])
  }

  /** The part of the halting and killing warnings after the verb. */
  const RiskWarning := " can come with serious risks such as losing data and security implications. Use with caution."

  /** `get_app_action_warning`: the dialog's body. */
  function ActionWarning(action: Process.ProcessAction): string
  {
    match action
    case Term => "Unsaved work might be lost."
    case Stop => "Halting an app" + RiskWarning
    case Kill => "Killing an app" + RiskWarning
    case Cont => ""
  }

  /** `get_app_action_description`: the label of the confirming button. */
  function ActionDescription(action: Process.ProcessAction): string
  {
    match action
    case Term => "End App"
    case Stop => "Halt App"
    case Kill => "Kill App"
    case Cont => "Continue App"
  }

  /** The heading names the application after the verb of its action. */
  lemma ActionNameOf(action: Process.ProcessAction, name: string)
    ensures action == Process.Term ==> ActionName(action, name) == "End " + name + "?"
    ensures action == Process.Stop ==> ActionName(action, name) == "Halt " + name + "?"
    ensures action == Process.Kill ==> ActionName(action, name) == "Kill " + name + "?"
    ensures action == Process.Cont ==> ActionName(action, name) == "Continue " + name + "?"
  {
    match action
    case Term =>
      assert "End " + I18n.Placeholder + "?" == "End {}?";
      I18n.FreplaceSingle("End ", name, "?");
    case Stop =>
      assert "Halt " + I18n.Placeholder + "?" == "Halt {}?";
      I18n.FreplaceSingle("Halt ", name, "?");
    case Kill =>
      assert "Kill " + I18n.Placeholder + "?" == "Kill {}?";
      I18n.FreplaceSingle("Kill ", name, "?");
    case Cont =>
      assert "Continue " + I18n.Placeholder + "?" == "Continue {}?";
      I18n.FreplaceSingle("Continue ", name, "?");
  }

  /** Only continuing comes without a warning, and each action has its own button label. */
  lemma ActionTexts(a: Process.ProcessAction, b: Process.ProcessAction)
    ensures ActionWarning(a) == "" <==> a == Process.Cont
    ensures ActionDescription(a) == ActionDescription(b) ==> a == b
  {
    if a != Process.Cont {
      assert |ActionWarning(a)| > 0;
    }
    if ActionDescription(a) == ActionDescription(b) {
      assert ActionDescription(a)[0] == ActionDescription(b)[0];
    }
  }

  /** What `execute_process_action_dialog` leads to: whether a confirmation dialog is shown
      (with its heading, body and button label), and the `ManipulateApp` action sent (signal
      and application id), if any. `response` is the dialog's answer. */
  datatype AppActionOutcome = AppActionOutcome(
    confirmation: Option<(string, string, string)>, sent: Option<(Process.ProcessAction, string)>)

  /** The id is unwrapped when the action is sent, so it must be there whenever it is. */
  function ExecuteAppAction(app: AppItem, action: Process.ProcessAction, response: string): (r: AppActionOutcome)
    requires action == Process.Cont || response == "yes" ==> app.id.Some?
  {
    if action == Process.Cont then AppActionOutcome(None, Some((action, app.id.value)))
    else
      AppActionOutcome(Some((ActionName(action, app.displayName), ActionWarning(action), ActionDescription(action))),
                       if response == "yes" then Some((action, app.id.value)) else None)
  }

  /** Continuing is sent without asking; every other signal is asked for, with a warning, and
      sent only on "yes", to the application's own id. */
  lemma AppActionNeedsConfirmation(app: AppItem, action: Process.ProcessAction, response: string)
    requires action == Process.Cont || response == "yes" ==> app.id.Some?
    ensures ExecuteAppAction(app, action, response).confirmation.Some? <==> action != Process.Cont
    ensures ExecuteAppAction(app, action, response).confirmation.Some? ==>
      ExecuteAppAction(app, action, response).confirmation.value.1 != ""
    ensures ExecuteAppAction(app, action, response).sent.Some? <==> action == Process.Cont || response == "yes"
    ensures ExecuteAppAction(app, action, response).sent.Some? ==>
      ExecuteAppAction(app, action, response).sent.value == (action, app.id.value)
  {
    ActionTexts(action, action);
  }

  /** The end button is sensitive only on an application row, whose id every action can
      unwrap. */
  lemma EndButtonRowHasId(app: AppItem, action: Process.ProcessAction, response: string)
    requires SelectionButtons(Some(app.id)).endApplication
    ensures action == Process.Cont || response == "yes" ==> app.id.Some?
  {
  }
}
