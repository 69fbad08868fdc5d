/** The directory scan shared by `Battery::get_sysfs_paths` (src/utils/battery.rs),
    `Drive::get_sysfs_paths` (src/utils/drive.rs) and `NetworkInterface::get_sysfs_paths`
    (src/utils/network.rs): the entries of a sysfs directory are walked
    in order, an unreadable entry ends the scan with its error (`entry?`), and the path of
    every entry the filter keeps is pushed onto the list. The directory's entries, with what
    the filter looks at, are the input; reading the directory itself is not modelled. */
module DirListing {
  import opened Wrappers

  /** A directory entry: its path and whatever the filter decides on. */
  datatype Entry<T> = Entry(path: string, info: T)

  /** The outcome of scanning `entries`: the first error, or the kept paths in order. */
  function Kept<T>(entries: seq<Result<Entry<T>, string>>, keep: T -> bool): Result<seq<string>, string>
    decreases |entries|
  {
    if |entries| == 0 then Ok([])
    else
      match Kept(entries[..|entries| - 1], keep)
      case Err(e) => Err(e)
      case Ok(paths) =>
        match entries[|entries| - 1]
        case Err(e) => Err(e)
        case Ok(entry) => Ok(if keep(entry.info) then paths + [entry.path] else paths)
  }

  /** Once the scan has failed, later entries do not change the error. */
  lemma {:induction false} KeptErrorSticks<T>(entries: seq<Result<Entry<T>, string>>, keep: T -> bool, n: nat)
    requires n <= |entries| && Kept(entries[..n], keep).Err?
    ensures Kept(entries, keep) == Kept(entries[..n], keep)
    decreases |entries| - n
  {
    if n < |entries| {
      assert entries[..n + 1][..n] == entries[..n];
      KeptErrorSticks(entries, keep, n + 1);
    } else {
      assert entries[..n] == entries;
    }
  }

  /** The first unreadable entry ends the scan with its error, whatever follows it. */
  lemma FirstErrorEndsScan<T>(entries: seq<Result<Entry<T>, string>>, keep: T -> bool, n: nat)
    requires n < |entries| && entries[n].Err?
    requires forall i :: 0 <= i < n ==> entries[i].Ok?
    ensures Kept(entries, keep) == Err(entries[n].error)
  {
    var prefix := entries[..n];
    KeptMembers(prefix, keep, "");
    assert entries[..n + 1][..n] == prefix;
    KeptErrorSticks(entries, keep, n + 1);
  }

  /** A scan without unreadable entries succeeds, and a path is listed exactly when an entry
      with that path is kept. */
  lemma {:induction false} KeptMembers<T>(entries: seq<Result<Entry<T>, string>>, keep: T -> bool, p: string)
    requires forall i :: 0 <= i < |entries| ==> entries[i].Ok?
    ensures Kept(entries, keep).Ok?
    ensures p in Kept(entries, keep).value <==>
      (exists i :: 0 <= i < |entries| && entries[i].value.path == p && keep(entries[i].value.info))
    decreases |entries|
  {
    if |entries| > 0 {
      var init := entries[..|entries| - 1];
      KeptMembers(init, keep, p);
      var last := |entries| - 1;
      if p in Kept(entries, keep).value && p !in Kept(init, keep).value {
        assert entries[last].value.path == p && keep(entries[last].value.info);
      }
      if exists i :: 0 <= i < |entries| && entries[i].value.path == p && keep(entries[i].value.info) {
        var i :| 0 <= i < |entries| && entries[i].value.path == p && keep(entries[i].value.info);
        if i < last {
          assert init[i] == entries[i];
        }
      }
    }
  }

  /** The `while let` loop over the entries. */
  method ListKept<T>(entries: seq<Result<Entry<T>, string>>, keep: T -> bool) returns (r: Result<seq<string>, string>)
    ensures r == Kept(entries, keep)
  {
    var list: seq<string> := [];
    var i := 0;
    while i < |entries|
      invariant 0 <= i <= |entries|
      invariant Kept(entries[..i], keep) == Ok(list)
    {
      assert entries[..i + 1][..i] == entries[..i];
      match entries[i]
      case Err(e) =>
        KeptErrorSticks(entries, keep, i + 1);
        return Err(e);
      case Ok(entry) =>
        if keep(entry.info) {
          list := list + [entry.path];
        }
      i := i + 1;
    }
    assert entries[..i] == entries;
    r := Ok(list);
  }
}
