/** Removing the unused directories of one store directory, and accounting for them. */
module Sweeping {
  import opened Wrappers

  /** A directory entry; `stuck` entries are those whose removal fails. */
  datatype Node<+P> = Node(isDir: bool, bytes: nat, stuck: bool, content: P)

  const U64_MAX: nat := 0xffff_ffff_ffff_ffff

  function Sat(n: nat): nat {
    if n > U64_MAX then U64_MAX else n
  }

  datatype Removal = Removal(count: nat, bytes: nat)
  {
    function Plus(other: Removal): Removal {
      Removal(count + other.count, Sat(bytes + other.bytes))
    }
  }

  predicate Hidden(name: string) {
    name != "" && name[0] == '.'
  }

  function Restrict<K, V>(m: map<K, V>, s: set<K>): map<K, V> {
    map k | k in m && k in s :: m[k]
  }

  ghost function Bytes<P>(m: map<string, Node<P>>): nat {
    if m == map[] then 0
    else
      var k :| k in m;
      m[k].bytes + Bytes(m - {k})
  }

  lemma {:induction false} BytesRemove<P>(m: map<string, Node<P>>, k: string)
    requires k in m
    ensures Bytes(m) == m[k].bytes + Bytes(m - {k})
    decreases |m|
  {
    var j :| j in m && Bytes(m) == m[j].bytes + Bytes(m - {j});
    if j != k {
      BytesRemove(m - {j}, k);
      BytesRemove(m - {k}, j);
      assert m - {j} - {k} == m - {k} - {j};
    }
  }

  /** Count and bytes of some entries, added up with saturation. */
  ghost function Tally<P>(m: map<string, Node<P>>, names: set<string>): Removal {
    Removal(|names|, Sat(Bytes(Restrict(m, names))))
  }

  lemma TallyAdd<P>(m: map<string, Node<P>>, names: set<string>, k: string)
    requires k in m && k !in names
    ensures Tally(m, names + {k}) == Tally(m, names).Plus(Removal(1, Sat(m[k].bytes)))
  {
    BytesRemove(Restrict(m, names + {k}), k);
    assert Restrict(m, names + {k}) - {k} == Restrict(m, names);
  }

  // ---- what a sweep does ----

  /** Visible directories whose name is not kept. */
  function Unused<P>(entries: map<string, Node<P>>, keep: set<string>): set<string> {
    set name | name in entries && entries[name].isDir && !Hidden(name) && name !in keep
  }

  /** What the sweep of `unused` reports; a dry run reports without removing. */
  function Reported<P>(entries: map<string, Node<P>>, unused: set<string>, dryRun: bool): set<string> {
    set name | name in unused && name in entries && (dryRun || !entries[name].stuck)
  }

  function After<P>(entries: map<string, Node<P>>, unused: set<string>, dryRun: bool): map<string, Node<P>> {
    if dryRun then entries else entries - Reported(entries, unused, false)
  }

  ghost function Report<P>(entries: map<string, Node<P>>, unused: set<string>, dryRun: bool): Removal {
    Tally(entries, Reported(entries, unused, dryRun))
  }

  lemma RemoveOneMore<P>(m: map<string, Node<P>>, names: set<string>, k: string)
    ensures m - names - {k} == m - (names + {k})
  {
  }

  /** `sweep_dir_by_name`, for every order the directory may be listed in. */
  method SweepDirByName<P>(entries: map<string, Node<P>>, keep: set<string>, dryRun: bool)
    returns (left: map<string, Node<P>>, removal: Removal)
    ensures left == After(entries, Unused(entries, keep), dryRun)
    ensures removal == Report(entries, Unused(entries, keep), dryRun)
  {
    left, removal := entries, Removal(0, 0);
    var todo := entries.Keys;
    ghost var done: set<string> := {};
    while todo != {}
      invariant todo <= entries.Keys
      invariant forall n :: n in done <==> n in Reported(entries, Unused(entries, keep), dryRun) && n !in todo
      invariant left == if dryRun then entries else entries - done
      invariant removal == Tally(entries, done)
      decreases todo
    {
      var name :| name in todo;
      todo := todo - {name};
      if entries[name].isDir && !Hidden(name) && name !in keep && (dryRun || !entries[name].stuck) {
        TallyAdd(entries, done, name);
        RemoveOneMore(entries, done, name);
        left := if dryRun then left else left - {name};
        removal := removal.Plus(Removal(1, Sat(entries[name].bytes)));
        done := done + {name};
      }
    }
    assert done == Reported(entries, Unused(entries, keep), dryRun);
  }

  // ---- recovery patches ----

  datatype PatchFile = PatchFile(isFile: bool, modified: Option<int>)

  const RETENTION := 30 * 24 * 3600

  predicate HasPatchExtension(name: string) {
    |name| > 6 && name[|name| - 6..] == ".patch"
  }

  function StalePatches(entries: map<string, Node<PatchFile>>, now: int): set<string> {
    set name | name in entries
      && entries[name].content.isFile && !Hidden(name) && HasPatchExtension(name)
      && entries[name].content.modified != None && entries[name].content.modified.value <= now - RETENTION
  }

  /** `sweep_stale_patch_files`; times are in seconds. */
  method SweepStalePatchFiles(entries: map<string, Node<PatchFile>>, now: int, dryRun: bool)
    returns (left: map<string, Node<PatchFile>>, removal: Removal)
    ensures left == After(entries, StalePatches(entries, now), dryRun)
    ensures removal == Report(entries, StalePatches(entries, now), dryRun)
  {
    left, removal := entries, Removal(0, 0);
    var cutoff := now - RETENTION;
    var todo := entries.Keys;
    ghost var done: set<string> := {};
    while todo != {}
      invariant todo <= entries.Keys
      invariant forall n :: n in done <==> n in Reported(entries, StalePatches(entries, now), dryRun) && n !in todo
      invariant left == if dryRun then entries else entries - done
      invariant removal == Tally(entries, done)
      decreases todo
    {
      var name :| name in todo;
      todo := todo - {name};
      var node := entries[name];
      if !node.content.isFile || Hidden(name) || !HasPatchExtension(name) {
        continue;
      }
      if node.content.modified == None || node.content.modified.value > cutoff || (!dryRun && node.stuck) {
        continue;
      }
      TallyAdd(entries, done, name);
      RemoveOneMore(entries, done, name);
      left := if dryRun then left else left - {name};
      removal := removal.Plus(Removal(1, Sat(node.bytes)));
      done := done + {name};
    }
    assert done == Reported(entries, StalePatches(entries, now), dryRun);
  }

  // ---- consequences ----

  predicate NoneStuck<P>(entries: map<string, Node<P>>) {
    forall name | name in entries :: !entries[name].stuck
  }

  /** A directory sweep never touches what it is told to keep, and removes exactly the unused directories. */
  lemma SweepKeeps<P>(entries: map<string, Node<P>>, keep: set<string>, dryRun: bool, name: string)
    requires name in entries
    ensures var left := After(entries, Unused(entries, keep), dryRun);
      && (name in left ==> left[name] == entries[name])
      && (name !in left <==> !dryRun && !entries[name].stuck && entries[name].isDir && !Hidden(name) && name !in keep)
  {
  }

  /** When everything unused is gone there is nothing more to remove or report. */
  lemma NothingUnused<P>(entries: map<string, Node<P>>, unused: set<string>, dryRun: bool)
    requires unused !! entries.Keys
    ensures After(entries, unused, dryRun) == entries
    ensures Report(entries, unused, dryRun) == Removal(0, 0)
  {
    assert Reported(entries, unused, dryRun) == {};
  }

  /** Nothing unused adds nothing to a total. */
  lemma NoneReported<P>(entries: map<string, Node<P>>, keep: set<string>)
    requires Unused(entries, keep) == {}
    ensures Report(entries, Unused(entries, keep), false).Plus(Removal(0, 0)) == Removal(0, 0)
  {
    NothingUnused(entries, Unused(entries, keep), false);
  }

  /** Without failing removals a dry run reports what a real run removes. */
  lemma DryReportsReal<P>(entries: map<string, Node<P>>, unused: set<string>)
    requires NoneStuck(entries)
    ensures Report(entries, unused, true) == Report(entries, unused, false)
  {
    assert Reported(entries, unused, true) == Reported(entries, unused, false);
  }
}
