/**
  Counting distinct digests on disk: digests are cut into sorted runs, runs are merged 64 at a time into new
  files, and the last merge counts.  Files are created exclusively, so a name that is still in use is an error.
*/
module DigestSet {
  import opened Common

  /** A digest, ordered as its bytes are. */
  type Digest = nat

  const CHUNK: nat := 1048576   // digests per run

  const FAN_IN: nat := 64       // runs per merge

  datatype Name = Run(index: nat) | Merged(index: nat)

  function Elements(s: seq<Digest>): set<Digest> {
    set x | x in s
  }

  ghost predicate Rising(s: seq<Digest>) {
    forall i, j | 0 <= i < j < |s| :: s[i] < s[j]
  }

  ghost predicate InSome(runs: seq<seq<Digest>>, x: Digest) {
    exists i | 0 <= i < |runs| :: x in runs[i]
  }

  lemma {:induction false} RisingCounts(s: seq<Digest>)
    requires Rising(s)
    ensures |Elements(s)| == |s|
  {
    if s != [] {
      var n := |s| - 1;
      RisingCounts(s[..n]);
      assert s[n] !in s[..n];
      assert s == s[..n] + [s[n]];
      assert Elements(s) == Elements(s[..n]) + {s[n]};
    }
  }

  lemma Append(s: seq<Digest>, x: Digest)
    requires Rising(s) && (s != [] ==> s[|s| - 1] < x)
    ensures Rising(s + [x]) && Elements(s + [x]) == Elements(s) + {x}
  {
    var t := s + [x];
    assert forall y | y in t :: y in s || y == x;
    assert t[|s|] == x && forall y | y in s :: y in t;
  }

  // ---------------------------------------------------------------- one run

  ghost predicate Ascending(s: seq<Digest>) {
    forall i, j | 0 <= i < j < |s| :: s[i] <= s[j]
  }

  lemma InsertAt(s: seq<Digest>, k: nat, x: Digest)
    requires Ascending(s) && k <= |s|
    requires (k > 0 ==> s[k - 1] <= x) && (k < |s| ==> x <= s[k])
    ensures Ascending(s[..k] + [x] + s[k..]) && Elements(s[..k] + [x] + s[k..]) == Elements(s) + {x}
  {
    InsertAscends(s, k, x);
    InsertMembers(s, k, x);
  }

  lemma InsertAscends(s: seq<Digest>, k: nat, x: Digest)
    requires Ascending(s) && k <= |s|
    requires (k > 0 ==> s[k - 1] <= x) && (k < |s| ==> x <= s[k])
    ensures Ascending(s[..k] + [x] + s[k..])
  {
    var r := s[..k] + [x] + s[k..];
    assert forall i | 0 <= i < k :: r[i] == s[i] <= x;
    assert forall i | k < i < |r| :: r[i] == s[i - 1] >= x;
  }

  lemma InsertMembers(s: seq<Digest>, k: nat, x: Digest)
    requires k <= |s|
    ensures Elements(s[..k] + [x] + s[k..]) == Elements(s) + {x}
  {
    var r := s[..k] + [x] + s[k..];
    assert s == s[..k] + s[k..];
    forall y | y in s
      ensures y in r
    {
      var i :| 0 <= i < |s| && s[i] == y;
      assert r[if i < k then i else i + 1] == y;
    }
    assert r[k] == x;
  }

  method Insert(s: seq<Digest>, x: Digest) returns (r: seq<Digest>)
    requires Ascending(s)
    ensures Ascending(r) && Elements(r) == Elements(s) + {x}
  {
    var k := |s|;
    while k > 0 && s[k - 1] > x
      invariant 0 <= k <= |s| && (k < |s| ==> s[k] > x)
    {
      k := k - 1;
    }
    InsertAt(s, k, x);
    r := s[..k] + [x] + s[k..];
  }

  method Sort(values: seq<Digest>) returns (r: seq<Digest>)
    ensures Ascending(r) && Elements(r) == Elements(values)
  {
    r := [];
    for i := 0 to |values|
      invariant Ascending(r) && Elements(r) == Elements(values[..i])
    {
      r := Insert(r, values[i]);
      assert values[..i + 1] == values[..i] + [values[i]];
      assert Elements(values[..i + 1]) == Elements(values[..i]) + {values[i]};
    }
    assert values[..|values|] == values;
  }

  /** The content of a run file: sorted, without repetitions. */
  method MakeRun(values: seq<Digest>) returns (run: seq<Digest>)
    ensures Rising(run) && Elements(run) == Elements(values)
  {
    var sorted := Sort(values);
    run := [];
    for i := 0 to |sorted|
      invariant Rising(run) && Elements(run) == Elements(sorted[..i])
      invariant i > 0 ==> run != [] && run[|run| - 1] == sorted[i - 1]
      invariant i == 0 ==> run == []
    {
      assert sorted[..i + 1] == sorted[..i] + [sorted[i]];
      assert Elements(sorted[..i + 1]) == Elements(sorted[..i]) + {sorted[i]};
      if i > 0 && sorted[i] == sorted[i - 1] {
        assert sorted[i] in sorted[..i];
        continue;
      }
      Append(run, sorted[i]);
      run := run + [sorted[i]];
    }
    assert sorted[..|sorted|] == sorted;
  }

  // ---------------------------------------------------------------- merging

  ghost predicate Positions(runs: seq<seq<Digest>>, at: seq<nat>) {
    |at| == |runs| && forall i | 0 <= i < |runs| :: at[i] <= |runs[i]|
  }

  /** `x` has been read from some run. */
  ghost predicate Taken(runs: seq<seq<Digest>>, at: seq<nat>, x: Digest)
    requires Positions(runs, at)
  {
    exists i | 0 <= i < |runs| :: x in runs[i][..at[i]]
  }

  /** No digest still to be read is below `low`. */
  ghost predicate AllFrom(runs: seq<seq<Digest>>, at: seq<nat>, low: Digest)
    requires Positions(runs, at)
  {
    forall i, k | 0 <= i < |runs| && at[i] <= k < |runs[i]| :: low <= runs[i][k]
  }

  function Total(at: seq<nat>): nat {
    if at == [] then 0 else Total(at[..|at| - 1]) + at[|at| - 1]
  }

  lemma {:induction false} TotalStep(at: seq<nat>, i: nat)
    requires i < |at|
    ensures Total(at[i := at[i] + 1]) == Total(at) + 1
  {
    var n := |at| - 1;
    var next := at[i := at[i] + 1];
    if i < n {
      TotalStep(at[..n], i);
      assert next[..n] == at[..n][i := at[..n][i] + 1];
    } else {
      assert next[..n] == at[..n];
    }
  }

  ghost function Lengths(runs: seq<seq<Digest>>): seq<nat> {
    seq(|runs|, i requires 0 <= i < |runs| => |runs[i]|)
  }

  lemma {:induction false} TotalBounded(at: seq<nat>, most: seq<nat>)
    requires |at| == |most| && forall i | 0 <= i < |at| :: at[i] <= most[i]
    ensures Total(at) <= Total(most)
    decreases |at|
  {
    if at != [] {
      TotalBounded(at[..|at| - 1], most[..|at| - 1]);
    }
  }

  /** The run whose next digest is least, the first of several; None when all runs are read. */
  method Least(runs: seq<seq<Digest>>, at: seq<nat>) returns (r: Option<nat>)
    requires Positions(runs, at)
    ensures r.None? ==> forall i | 0 <= i < |runs| :: at[i] == |runs[i]|
    ensures r.Some? ==> r.value < |runs| && at[r.value] < |runs[r.value]|
    ensures r.Some? ==> forall i | 0 <= i < |runs| && at[i] < |runs[i]| ::
              runs[r.value][at[r.value]] < runs[i][at[i]] ||
              (runs[r.value][at[r.value]] == runs[i][at[i]] && r.value <= i)
  {
    r := None;
    for i := 0 to |runs|
      invariant r.None? ==> forall j | 0 <= j < i :: at[j] == |runs[j]|
      invariant r.Some? ==> r.value < i && at[r.value] < |runs[r.value]|
      invariant r.Some? ==> forall j | 0 <= j < i && at[j] < |runs[j]| ::
                  runs[r.value][at[r.value]] < runs[j][at[j]] ||
                  (runs[r.value][at[r.value]] == runs[j][at[j]] && r.value <= j)
    {
      if at[i] < |runs[i]| && (r.None? || runs[i][at[i]] < runs[r.value][at[r.value]]) {
        r := Some(i);
      }
    }
  }

  lemma TakeOne(runs: seq<seq<Digest>>, at: seq<nat>, i: nat)
    requires Positions(runs, at) && i < |runs| && at[i] < |runs[i]|
    ensures Positions(runs, at[i := at[i] + 1])
    ensures forall x :: Taken(runs, at[i := at[i] + 1], x) <==> Taken(runs, at, x) || x == runs[i][at[i]]
  {
    var next := at[i := at[i] + 1];
    assert runs[i][..at[i] + 1] == runs[i][..at[i]] + [runs[i][at[i]]];
    forall x | Taken(runs, at, x)
      ensures Taken(runs, next, x)
    {
      var j :| 0 <= j < |runs| && x in runs[j][..at[j]];
      assert x in runs[j][..next[j]];
    }
    assert runs[i][at[i]] in runs[i][..next[i]];
    forall x | Taken(runs, next, x)
      ensures Taken(runs, at, x) || x == runs[i][at[i]]
    {
      var j :| 0 <= j < |runs| && x in runs[j][..next[j]];
      assert j != i ==> x in runs[j][..at[j]];
    }
  }

  lemma LeastIsLow(runs: seq<seq<Digest>>, at: seq<nat>, i: nat)
    requires Positions(runs, at) && i < |runs| && at[i] < |runs[i]| && forall j | 0 <= j < |runs| :: Rising(runs[j])
    requires forall j | 0 <= j < |runs| && at[j] < |runs[j]| :: runs[i][at[i]] <= runs[j][at[j]]
    ensures AllFrom(runs, at, runs[i][at[i]]) && AllFrom(runs, at[i := at[i] + 1], runs[i][at[i]])
  {
  }

  lemma AllTaken(runs: seq<seq<Digest>>, at: seq<nat>)
    requires Positions(runs, at) && forall i | 0 <= i < |runs| :: at[i] == |runs[i]|
    ensures forall x :: Taken(runs, at, x) <==> InSome(runs, x)
  {
    assert forall i | 0 <= i < |runs| :: runs[i][..at[i]] == runs[i];
  }

  /** `out` are the digests read so far, and nothing below its last one is still to come. */
  ghost predicate MergedTo(runs: seq<seq<Digest>>, at: seq<nat>, out: seq<Digest>) {
    && Positions(runs, at) && Rising(out)
    && (forall x :: x in out <==> Taken(runs, at, x))
    && (out != [] ==> AllFrom(runs, at, out[|out| - 1]))
  }

  lemma MergeStep(runs: seq<seq<Digest>>, at: seq<nat>, out: seq<Digest>, i: nat)
    requires MergedTo(runs, at, out) && i < |runs| && at[i] < |runs[i]| && forall j | 0 <= j < |runs| :: Rising(runs[j])
    requires forall j | 0 <= j < |runs| && at[j] < |runs[j]| :: runs[i][at[i]] <= runs[j][at[j]]
    ensures var digest := runs[i][at[i]];
            MergedTo(runs, at[i := at[i] + 1], if out == [] || out[|out| - 1] != digest then out + [digest] else out)
  {
    var digest := runs[i][at[i]];
    LeastIsLow(runs, at, i);
    TakeOne(runs, at, i);
    if out == [] || out[|out| - 1] != digest {
      Append(out, digest);
      MembersGrow(out, digest);
    }
  }

  /** Merge sorted runs: sorted output, exactly the digests of the runs, each once. */
  method MergeRuns(runs: seq<seq<Digest>>) returns (out: seq<Digest>)
    requires forall i | 0 <= i < |runs| :: Rising(runs[i])
    ensures Rising(out) && forall x :: x in out <==> InSome(runs, x)
  {
    out := [];
    var at: seq<nat> := seq(|runs|, i => 0);
    ghost var most := Lengths(runs);
    while true
      invariant MergedTo(runs, at, out)
      decreases Total(most) - Total(at)
    {
      var least := Least(runs, at);
      if least.None? {
        break;
      }
      var i := least.value;
      MergeStep(runs, at, out, i);
      TotalStep(at, i);
      if out == [] || out[|out| - 1] != runs[i][at[i]] {
        out := out + [runs[i][at[i]]];
      }
      at := at[i := at[i] + 1];
      TotalBounded(at, most);
    }
    AllTaken(runs, at);
  }

  lemma MembersGrow(s: seq<Digest>, x: Digest)
    ensures forall y :: y in s + [x] <==> y in s || y == x
  {
    assert (s + [x])[|s|] == x;
  }

  // ---------------------------------------------------------------- the set on disk

  function RunCount(n: nat): nat {
    (n + CHUNK - 1) / CHUNK
  }

  type Files = map<Name, seq<Digest>>

  function NameSet(names: seq<Name>): set<Name> {
    set n | n in names
  }

  ghost predicate Distinct(names: seq<Name>) {
    forall i, j | 0 <= i < j < |names| :: names[i] != names[j]
  }

  ghost predicate HeldBy(files: Files, live: set<Name>, x: Digest) {
    exists n | n in live :: n in files && x in files[n]
  }

  /** The live files exist, are sorted, and hold exactly `all` between them. */
  ghost predicate Holds(files: Files, live: set<Name>, all: set<Digest>) {
    && live <= files.Keys
    && (forall n | n in live :: Rising(files[n]))
    && (forall x :: x in all <==> HeldBy(files, live, x))
  }

  lemma AddFile(files: Files, live: set<Name>, all: set<Digest>, name: Name, run: seq<Digest>)
    requires Holds(files, live, all) && name !in files && Rising(run)
    ensures Holds(files[name := run], live + {name}, all + Elements(run))
  {
    var more := files[name := run];
    forall x | x in all + Elements(run)
      ensures HeldBy(more, live + {name}, x)
    {
      if x in all {
        var n :| n in live && n in files && x in files[n];
        assert n in live + {name} && x in more[n];
      } else {
        assert name in live + {name} && x in more[name];
      }
    }
  }

  /** Replacing the files of a group by one file with the same digests. */
  lemma ReplaceGroup(files: Files, rest: set<Name>, group: set<Name>, all: set<Digest>, name: Name, out: seq<Digest>)
    requires Holds(files, rest + group, all) && rest !! group && name !in files && Rising(out)
    requires forall x :: x in out <==> HeldBy(files, group, x)
    ensures Holds(files[name := out] - group, rest + {name}, all)
  {
    var next := files[name := out] - group;
    forall x | x in all
      ensures HeldBy(next, rest + {name}, x)
    {
      var n :| n in rest + group && n in files && x in files[n];
      if n in rest {
        assert n in rest + {name} && x in next[n];
      } else {
        assert HeldBy(files, group, x);
        assert name in rest + {name} && x in next[name];
      }
    }
    forall x | HeldBy(next, rest + {name}, x)
      ensures x in all
    {
      var n :| n in rest + {name} && n in next && x in next[n];
      if n == name {
        var m :| m in group && m in files && x in files[m];
        assert m in rest + group;
      } else {
        assert n in rest + group;
      }
      assert HeldBy(files, rest + group, x);
    }
  }

  /** Where a count is cancelled, if anywhere: before it reads a chunk, or before it merges. */
  datatype Cancellation = Never | WhileReading(chunk: nat) | BeforeMerging

  class DiskDigestSet {
    var input: seq<Digest>      // the input file
    var position: nat           // its read and write position, in digests
    var files: Files
    var closed: bool
    ghost var added: seq<Digest>

    ghost predicate Valid()
      reads this
    {
      position <= |input|
    }

    constructor ()
      ensures Valid() && Complete() && input == [] && files == map[] && !closed
    {
      input, position, files, closed, added := [], 0, map[], false, [];
    }

    /** The file holds exactly what was added. */
    ghost predicate Complete()
      reads this
    {
      input == added
    }

    /**
      `value` is None when the text is not a digest.  A digest is written at the current position, so the file stays
      complete exactly when the position is at its end.
    */
    method Add(value: Option<Digest>) returns (ok: bool)
      requires Valid()
      modifies `input, `position, `added
      ensures Valid() && (ok <==> !closed && value.Some?)
      ensures added == if ok then old(added) + [value.value] else old(added)
      ensures !ok ==> input == old(input) && position == old(position)
      ensures ok ==> position == old(position) + 1 && |input| >= old(|input|)
      ensures ok && old(Complete()) ==> (Complete() <==> old(position == |input|))
      ensures ok && old(position == |input|) ==> input == old(input) + [value.value] && position == |input|
      ensures ok && old(position < |input|) ==> input == old(input)[old(position) := value.value]
      ensures old(Spent()) ==> Spent()
    {
      ok := !closed && value.Some?;
      if ok {
        input := input[..position] + [value.value] + (if position < |input| then input[position + 1..] else []);
        added := added + [value.value];
        position := position + 1;
      }
    }

    /** The directory is removed; a closed set takes no more digests and gives no more counts. */
    method Close()
      modifies `files, `closed
      ensures closed && files == map[]
    {
      files, closed := map[], true;
    }

    /** An earlier count has left a file that the next one will need. */
    ghost predicate Spent()
      reads this
    {
      input != [] && (Run(0) in files || (Merged(0) in files && RunCount(|input|) > FAN_IN))
    }

    /** Cut the input into sorted run files. */
    method CreateRuns(cancel: Cancellation) returns (runs: Option<seq<Name>>)
      modifies `files, `position
      ensures Valid() && (runs.Some? ==> position == |input|)
      ensures runs.Some? <==> !Stopped(cancel) && forall k | 0 <= k < RunCount(|input|) :: Run(k) !in old(files)
      ensures runs.Some? ==> |runs.value| == RunCount(|input|) && Holds(files, NameSet(runs.value), Elements(input))
      ensures runs.Some? ==> forall k | 0 <= k < |runs.value| :: runs.value[k] == Run(k)
      ensures forall k :: Merged(k) in files <==> Merged(k) in old(files)
      ensures input != [] && cancel != WhileReading(0) ==> Run(0) in files
      ensures cancel == WhileReading(0) ==> files == old(files) && position == 0
    {
      var start: nat, names: seq<Name> := 0, [];
      position := 0;
      assert input[..0] == [];
      while start < |input|
        invariant start <= |input| && |names| == RunCount(start) && (start < |input| ==> start == |names| * CHUNK)
        invariant forall k | 0 <= k < |names| :: names[k] == Run(k) && Run(k) !in old(files)
        invariant forall k | k >= |names| :: Run(k) in files <==> Run(k) in old(files)
        invariant forall k :: Merged(k) in files <==> Merged(k) in old(files)
        invariant start > 0 ==> Run(0) in files
        invariant cancel.WhileReading? ==> cancel.chunk >= |names|
        invariant start == 0 ==> files == old(files)
        invariant position == start
        invariant Holds(files, NameSet(names), Elements(input[..start]))
      {
        if cancel == WhileReading(|names|) {
          return None;
        }
        var end := if start + CHUNK < |input| then start + CHUNK else |input|;
        position := end;
        var run := MakeRun(input[start..end]);
        var name := Run(|names|);
        assert |names| < RunCount(|input|);
        if name in files {
          return None;
        }
        AddFile(files, NameSet(names), Elements(input[..start]), name, run);
        ElementsSplit(input, start, end);
        NameSetGrows(names, name);
        files := files[name := run];
        names, start := names + [name], end;
      }
      if cancel == WhileReading(|names|) {
        return None;
      }
      assert input[..|input|] == input;
      runs := Some(names);
    }

    /** The count is cancelled while it reads. */
    ghost predicate Stopped(cancel: Cancellation)
      reads this
    {
      cancel.WhileReading? && cancel.chunk <= RunCount(|input|)
    }

    method ReadFiles(names: seq<Name>) returns (contents: seq<seq<Digest>>)
      requires NameSet(names) <= files.Keys
      ensures |contents| == |names| && forall i | 0 <= i < |names| :: contents[i] == files[names[i]]
      ensures forall x :: InSome(contents, x) <==> HeldBy(files, NameSet(names), x)
    {
      contents := [];
      for i := 0 to |names|
        invariant |contents| == i && forall j | 0 <= j < i :: contents[j] == files[names[j]]
      {
        assert names[i] in NameSet(names);
        contents := contents + [files[names[i]]];
      }
      SameMembers(files, names, contents);
    }

    /** Merge a group of runs into a new file and remove the group. */
    method MergeGroup(group: seq<Name>, name: Name, ghost rest: set<Name>, ghost all: set<Digest>)
      requires Holds(files, rest + NameSet(group), all) && rest !! NameSet(group) && name !in files
      modifies `files
      ensures Holds(files, rest + {name}, all)
      ensures files.Keys == old(files.Keys) - NameSet(group) + {name}
    {
      var contents := ReadFiles(group);
      forall i | 0 <= i < |group|
        ensures Rising(contents[i])
      {
        assert group[i] in NameSet(group);
      }
      var out := MergeRuns(contents);
      ReplaceGroup(files, rest, NameSet(group), all, name, out);
      files := files[name := out] - NameSet(group);
    }

    /**
      One merging level: every group of 64 runs becomes one file named by its position in the new level, and only
      then the group's files are removed.
    */
    method MergeLevel(runs: seq<Name>, ghost all: set<Digest>) returns (next: Option<seq<Name>>)
      requires Holds(files, NameSet(runs), all) && Distinct(runs) && |runs| > FAN_IN
      modifies `files
      ensures Merged(0) in old(files) ==> next.None?
      ensures Merged(0) in files
      ensures (forall k :: Merged(k) !in old(files)) ==> next.Some?
      ensures next.Some? ==> Holds(files, NameSet(next.value), all) && |next.value| == (|runs| + FAN_IN - 1) / FAN_IN
      ensures next.Some? ==> forall k | 0 <= k < |next.value| :: next.value[k] == Merged(k)
    {
      var start: nat, names: seq<Name> := 0, [];
      assert runs[0..] == runs && NameSet([]) + NameSet(runs) == NameSet(runs);
      while start < |runs|
        invariant start <= |runs| && |names| == (start + FAN_IN - 1) / FAN_IN
        invariant (start < |runs| ==> start == |names| * FAN_IN)
        invariant names == [] ==> files == old(files)
        invariant names != [] ==> Merged(0) !in old(files) && Merged(0) in NameSet(names)
        invariant forall k | 0 <= k < |names| :: names[k] == Merged(k)
        invariant (forall k :: Merged(k) !in old(files)) ==> forall k | k >= |names| :: Merged(k) !in files
        invariant Holds(files, NameSet(names) + NameSet(runs[start..]), all)
        invariant NameSet(names) !! NameSet(runs[start..])
      {
        var end := if start + FAN_IN < |runs| then start + FAN_IN else |runs|;
        var name := Merged(|names|);
        if name in files {
          return None;
        }
        ghost var rest := NameSet(names) + NameSet(runs[end..]);
        SplitNames(runs, start, end);
        assert rest + NameSet(runs[start..end]) == NameSet(names) + NameSet(runs[start..]);
        assert name !in NameSet(runs[end..]);
        MergeGroup(runs[start..end], name, rest, all);
        NameSetGrows(names, name);
        assert rest + {name} == NameSet(names + [name]) + NameSet(runs[end..]);
        names, start := names + [name], end;
      }
      assert NameSet(names) + NameSet(runs[start..]) == NameSet(names);
      assert names[0] in NameSet(names);
      next := Some(names);
    }

    /**
      A count is the number of distinct digests in the file.  In a fresh directory and left alone it succeeds exactly
      when one merging level is enough.  After a count of a nonempty file no further count succeeds, unless it was
      cancelled before it read anything; then the position is at the start.
    */
    method Count(cancel: Cancellation) returns (count: Option<nat>)
      requires Valid()
      modifies `files, `position
      ensures Valid()
      ensures count.Some? ==> count.value == |Elements(input)| && position == |input|
      ensures count.Some? && Complete() ==> count.value == |Elements(added)|
      ensures old(files) == map[] && !closed && cancel.Never? ==>
                (count.Some? <==> RunCount(|input|) <= FAN_IN * FAN_IN)
      ensures !closed && input != [] && cancel != WhileReading(0) ==> Spent()
      ensures !closed && cancel == WhileReading(0) ==> count.None? && files == old(files) && position == 0
      ensures old(Spent()) ==> count.None?
    {
      if closed {
        return None;
      }
      var created := CreateRuns(cancel);
      if created.None? || (cancel.BeforeMerging? && created.value != []) {
        return None;
      }
      var runs := created.value;
      ghost var levels := 0;
      while |runs| > FAN_IN
        invariant position == |input| && levels <= 1 && Holds(files, NameSet(runs), Elements(input)) && Distinct(runs)
        invariant levels == 0 ==> |runs| == RunCount(|input|) && forall k | 0 <= k < |runs| :: runs[k] == Run(k)
        invariant levels == 0 ==> forall k :: Merged(k) in files <==> Merged(k) in old(files)
        invariant levels == 1 ==>
                    && Merged(0) in files && Merged(0) !in old(files) && RunCount(|input|) > FAN_IN
                    && |runs| == (RunCount(|input|) + FAN_IN - 1) / FAN_IN
        decreases |runs|
      {
        var next := MergeLevel(runs, Elements(input));
        if next.None? {
          return None;
        }
        runs, levels := next.value, levels + 1;
      }
      if |runs| == 0 {
        assert forall x | x in Elements(input) :: HeldBy(files, NameSet(runs), x);
        assert Elements(input) == {};
        return Some(0);
      }
      assert runs[0] in NameSet(runs);
      var contents := ReadFiles(runs);
      forall i | 0 <= i < |runs|
        ensures Rising(contents[i])
      {
        assert runs[i] in NameSet(runs);
      }
      var out := MergeRuns(contents);
      RisingCounts(out);
      assert Elements(out) == Elements(input);
      count := Some(|out|);
    }
  }

  /** A second count of one digest fails, although the first one succeeded. */
  method CountTwice(digest: Digest) returns (first: Option<nat>, second: Option<nat>)
    ensures first == Some(1) && second == None
  {
    var digests := new DiskDigestSet();
    var ok := digests.Add(Some(digest));
    assert digests.input == [digest] && Elements([digest]) == {digest};
    assert RunCount(1) == 1;
    first := digests.Count(Never);
    second := digests.Count(Never);
  }

  /** One digest more than 64 times 64 full runs, and the first count fails; the digests need not even differ. */
  method CountTooMany(digest: Digest) returns (count: Option<nat>)
    ensures count == None
  {
    var digests := new DiskDigestSet();
    var most := FAN_IN * FAN_IN * CHUNK;
    while |digests.input| <= most
      invariant digests.Valid() && digests.position == |digests.input| <= most + 1
      invariant !digests.closed && digests.files == map[]
    {
      var ok := digests.Add(Some(digest));
    }
    count := digests.Count(Never);
  }

  /** A count cancelled at once rewinds the file: the next digest overwrites the first, and two digests count as one. */
  method CancelledCountForgets(a: Digest, b: Digest) returns (digests: DiskDigestSet, count: Option<nat>)
    ensures digests.added == [a, b] && count == Some(1)
  {
    digests := new DiskDigestSet();
    var ok := digests.Add(Some(a));
    count := digests.Count(WhileReading(0));
    ok := digests.Add(Some(b));
    assert digests.input == [b] && Elements([b]) == {b};
    assert RunCount(1) == 1;
    count := digests.Count(Never);
  }

  lemma ElementsSplit(s: seq<Digest>, i: nat, j: nat)
    requires i <= j <= |s|
    ensures Elements(s[..j]) == Elements(s[..i]) + Elements(s[i..j])
  {
    assert s[..j] == s[..i] + s[i..j];
  }

  lemma NameSetGrows(names: seq<Name>, name: Name)
    ensures NameSet(names + [name]) == NameSet(names) + {name}
  {
    assert (names + [name])[|names|] == name;
  }

  lemma SplitNames(runs: seq<Name>, i: nat, j: nat)
    requires Distinct(runs) && i <= j <= |runs|
    ensures NameSet(runs[i..]) == NameSet(runs[i..j]) + NameSet(runs[j..])
    ensures NameSet(runs[i..j]) !! NameSet(runs[j..])
  {
    assert runs[i..] == runs[i..j] + runs[j..];
  }

  lemma SameMembers(files: Files, names: seq<Name>, contents: seq<seq<Digest>>)
    requires NameSet(names) <= files.Keys
    requires |contents| == |names| && forall i | 0 <= i < |names| :: names[i] in files && contents[i] == files[names[i]]
    ensures forall x :: InSome(contents, x) <==> HeldBy(files, NameSet(names), x)
  {
    forall x | InSome(contents, x)
      ensures HeldBy(files, NameSet(names), x)
    {
      var i :| 0 <= i < |contents| && x in contents[i];
      assert names[i] in NameSet(names);
    }
    forall x | HeldBy(files, NameSet(names), x)
      ensures InSome(contents, x)
    {
      var n :| n in NameSet(names) && n in files && x in files[n];
      var i :| 0 <= i < |names| && names[i] == n;
      assert x in contents[i];
    }
  }
}
