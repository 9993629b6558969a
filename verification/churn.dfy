/** Parsing a `git log --numstat` text into per-file records and aggregating
    them: `EXCLUDED_FILES`, the body of `getData` and `getFileHistory` in
    utils.mjs. The log is the model's input; the line separator is fixed to
    a line feed. */
module Churn {
  import opened Wrappers
  import opened Strings

  const EOL: char := '\n'
  const TAB: char := '\t'

  /** Paths never counted as source files; the empty string makes blank
      commit-separator lines vanish. */
  const ExcludedFiles: seq<string> := [
    "package-lock.json", "package.json", "yarn.lock", "CHANGELOG.md",
    "composer.lock", "yarn-error.log", "pnpm-lock.yaml", ""
  ]

  /** `EXCLUDED_FILES.includes(path)`: exact whole-string equality. */
  predicate IsExcluded(path: string)
  {
    path in ExcludedFiles
  }

  /** The record stored per file: `{additions, deletions, commitCount}`. */
  datatype FileStat = FileStat(additions: nat, deletions: nat, commitCount: nat)

  /** One `[path, stats]` entry of a JavaScript `Map`. */
  datatype Entry = Entry(path: string, stat: FileStat)

  // ---- a JavaScript Map: entries with distinct keys in insertion order ----

  function Paths(m: seq<Entry>): seq<string>
  {
    seq(|m|, i requires 0 <= i < |m| => m[i].path)
  }

  predicate DistinctPaths(m: seq<Entry>)
  {
    forall i, j :: 0 <= i < j < |m| ==> m[i].path != m[j].path
  }

  /** Position of key `k`, if present. */
  function PathIndex(m: seq<Entry>, k: string): (r: Option<nat>)
    ensures r.Some? ==> r.value < |m| && m[r.value].path == k
    ensures r.None? ==> forall j :: 0 <= j < |m| ==> m[j].path != k
  {
    if m == [] then None
    else if m[0].path == k then Some(0)
    else match PathIndex(m[1..], k)
      case None => None
      case Some(i) => Some(i + 1)
  }

  /** `map.get(k)`. */
  function MapGet(m: seq<Entry>, k: string): Option<FileStat>
  {
    match PathIndex(m, k)
    case None => None
    case Some(i) => Some(m[i].stat)
  }

  /** `map.set(k, v)`: an existing key keeps its place and takes the new
      value, a new key is appended; every other key keeps its value. */
  function MapSet(m: seq<Entry>, k: string, v: FileStat): (r: seq<Entry>)
    requires DistinctPaths(m)
    ensures DistinctPaths(r)
    ensures MapGet(r, k) == Some(v)
    ensures forall k' :: k' != k ==> MapGet(r, k') == MapGet(m, k')
    ensures Paths(r) == if k in Paths(m) then Paths(m) else Paths(m) + [k]
    ensures k !in Paths(m) ==> r == m + [Entry(k, v)]
  {
    match PathIndex(m, k)
    case Some(i) =>
      var r := m[i := Entry(k, v)];
      assert Paths(m)[i] == k;
      assert Paths(r) == Paths(m);
      MapGetDistinct(r, i);
      forall k' | k' != k ensures MapGet(r, k') == MapGet(m, k') {
        MapGetSame(m, r, k');
      }
      r
    case None =>
      var r := m + [Entry(k, v)];
      MapGetDistinct(r, |m|);
      forall k' | k' != k ensures MapGet(r, k') == MapGet(m, k') {
        MapGetSame(m, r, k');
      }
      r
  }

  lemma MapGetDistinct(m: seq<Entry>, i: nat)
    requires DistinctPaths(m) && i < |m|
    ensures MapGet(m, m[i].path) == Some(m[i].stat)
  {
  }

  lemma MapGetSame(m: seq<Entry>, r: seq<Entry>, k: string)
    requires DistinctPaths(m) && DistinctPaths(r)
    requires forall j :: 0 <= j < |m| && m[j].path == k ==> j < |r| && r[j] == m[j]
    requires forall j :: 0 <= j < |r| && r[j].path == k ==> j < |m| && r[j] == m[j]
    ensures MapGet(r, k) == MapGet(m, k)
  {
    match PathIndex(m, k)
    case Some(i) => MapGetDistinct(r, i);
    case None =>
  }

  // ---- parsing lines into file keys ----

  /** `repoHistory.split(os.EOL)` with the separator fixed to a line feed. */
  function Lines(log: string): seq<string>
  {
    Split(log, EOL)
  }

  /** `line.split('\t').pop()`: the last tab-separated field. */
  function FileKey(line: string): string
  {
    LastField(line, TAB)
  }

  /** `.map((line) => line.split('\t').pop())`. */
  function KeysOf(lines: seq<string>): (keys: seq<string>)
    ensures |keys| == |lines|
    ensures forall i :: 0 <= i < |lines| ==> keys[i] == FileKey(lines[i])
  {
    if lines == [] then [] else [FileKey(lines[0])] + KeysOf(lines[1..])
  }

  /** `.filter((file) => EXCLUDED_FILES.includes(file) === false)`. */
  function Kept(keys: seq<string>): seq<string>
  {
    if keys == [] then []
    else (if IsExcluded(keys[0]) then [] else [keys[0]]) + Kept(keys[1..])
  }

  /** The filter keeps exactly the non-excluded keys. */
  lemma {:induction false} KeptMembers(keys: seq<string>)
    ensures forall x :: x in Kept(keys) <==> x in keys && !IsExcluded(x)
  {
    if keys != [] {
      KeptMembers(keys[1..]);
      assert keys == [keys[0]] + keys[1..];
    }
  }

  /** The `files` array of `getData`: one key per non-excluded line. */
  function Files(log: string): seq<string>
  {
    Kept(KeysOf(Lines(log)))
  }

  /** `s.filter((f) => f === x).length`. */
  function Count(s: seq<string>, x: string): nat
  {
    if s == [] then 0 else (if s[0] == x then 1 else 0) + Count(s[1..], x)
  }

  /** Index of the first occurrence of `x` in `s`. */
  function FirstIndex(s: seq<string>, x: string): (i: nat)
    requires x in s
    ensures i < |s| && s[i] == x && x !in s[..i]
  {
    if s[0] == x then 0 else 1 + FirstIndex(s[1..], x)
  }

  lemma {:induction false} FirstIndexPrefix(s: seq<string>, n: nat, x: string)
    requires n <= |s| && x in s[..n]
    ensures FirstIndex(s[..n], x) == FirstIndex(s, x)
  {
    if s[0] != x {
      assert s[..n][1..] == s[1..][..n - 1];
      FirstIndexPrefix(s[1..], n - 1, x);
    }
  }

  /** `[...new Set(s)]`: each element once, in order of first occurrence. */
  function Distinct(s: seq<string>): (d: seq<string>)
    ensures forall i, j :: 0 <= i < j < |d| ==> d[i] != d[j]
    ensures forall x :: x in d <==> x in s
    ensures forall i, j :: 0 <= i < j < |d| ==> FirstIndex(s, d[i]) < FirstIndex(s, d[j])
  {
    if s == [] then []
    else
      var p := s[..|s| - 1];
      var x := s[|s| - 1];
      var d := Distinct(p);
      assert s == p + [x];
      forall y | y in d ensures FirstIndex(s, y) == FirstIndex(p, y) {
        FirstIndexPrefix(s, |s| - 1, y);
      }
      if x in d then d
      else
        assert FirstIndex(s, x) == |s| - 1;
        d + [x]
  }

  // ---- getFileHistory ----

  /** The lines whose last tab-field is `file`, in their original order. */
  function MatchingLines(lines: seq<string>, file: string): seq<string>
  {
    if lines == [] then []
    else (if FileKey(lines[0]) == file then [lines[0]] else []) + MatchingLines(lines[1..], file)
  }

  /** The filter keeps exactly the lines whose key is `file`. */
  lemma {:induction false} MatchingMembers(lines: seq<string>, file: string)
    ensures forall l :: l in MatchingLines(lines, file) <==> l in lines && FileKey(l) == file
  {
    if lines != [] {
      MatchingMembers(lines[1..], file);
      assert lines == [lines[0]] + lines[1..];
    }
  }

  /** `getFileHistory(repoHistory, file)`. */
  function GetFileHistory(log: string, file: string): string
  {
    Join(MatchingLines(Lines(log), file), EOL)
  }

  // ---- per-line counts and their sum ----

  /** The counts read from one line; `None` is the NaN `parseInt` gives
      for a binary marker `-` or a missing field. */
  datatype Counts = Counts(additions: Option<nat>, deletions: Option<nat>)

  /** The `counts` mapping of `getData` for one line. */
  function LineCounts(line: string): Counts
  {
    if |line| == 0 then Counts(Some(0), Some(0))
    else
      var fields := Split(line, TAB);
      Counts(ParseInt(fields[0]), if |fields| >= 2 then ParseInt(fields[1]) else None)
  }

  function CountsOf(lines: seq<string>): seq<Counts>
  {
    seq(|lines|, i requires 0 <= i < |lines| => LineCounts(lines[i]))
  }

  /** Number addition where NaN absorbs everything. */
  function Plus(a: Option<nat>, b: Option<nat>): Option<nat>
  {
    if a.Some? && b.Some? then Some(a.value + b.value) else None
  }

  /** The `counts.reduce(...)` left fold from `{additions: 0, deletions: 0}`. */
  function SumCounts(cs: seq<Counts>): Counts
  {
    if cs == [] then Counts(Some(0), Some(0))
    else
      var prev := SumCounts(cs[..|cs| - 1]);
      var curr := cs[|cs| - 1];
      Counts(Plus(prev.additions, curr.additions), Plus(prev.deletions, curr.deletions))
  }

  /** `total || 0`: NaN (and 0) become 0. */
  function OrZero(o: Option<nat>): nat
  {
    if o.Some? then o.value else 0
  }

  /** The record `getData` stores for `file`. */
  function FileStatOf(log: string, files: seq<string>, file: string): FileStat
  {
    var total := SumCounts(CountsOf(Split(GetFileHistory(log, file), EOL)));
    FileStat(OrZero(total.additions), OrZero(total.deletions), Count(files, file))
  }

  /** `FileStatOf` for one history, as a function of the file. */
  function StatsOf(log: string, files: seq<string>): string -> FileStat
  {
    file => FileStatOf(log, files, file)
  }

  /** One entry per key, with the record `stat` gives it. */
  function EntriesFor(stat: string -> FileStat, keys: seq<string>): seq<Entry>
  {
    seq(|keys|, i requires 0 <= i < |keys| => Entry(keys[i], stat(keys[i])))
  }

  lemma EntriesForAppend(stat: string -> FileStat, keys: seq<string>, x: string)
    ensures EntriesFor(stat, keys + [x]) == EntriesFor(stat, keys) + [Entry(x, stat(x))]
  {
    var a := EntriesFor(stat, keys + [x]);
    var b := EntriesFor(stat, keys) + [Entry(x, stat(x))];
    forall i | 0 <= i < |a| ensures a[i] == b[i] {
      if i < |keys| {
        assert (keys + [x])[i] == keys[i];
      }
    }
  }

  lemma EntriesForPaths(stat: string -> FileStat, keys: seq<string>)
    requires forall i, j :: 0 <= i < j < |keys| ==> keys[i] != keys[j]
    ensures Paths(EntriesFor(stat, keys)) == keys
    ensures DistinctPaths(EntriesFor(stat, keys))
  {
  }

  /** The map `getData` resolves with, as its entries in insertion order. */
  function Aggregate(log: string): seq<Entry>
  {
    var files := Files(log);
    EntriesFor(StatsOf(log, files), Distinct(files))
  }

  /** `getData` without the clone and `git log` steps: fills the map with one
      `set` per distinct file, in first-occurrence order. */
  method GetData(log: string) returns (fileData: seq<Entry>)
    ensures fileData == Aggregate(log)
    ensures DistinctPaths(fileData)
  {
    var files := Files(log);
    var uniqueFiles := Distinct(files);
    ghost var stats := StatsOf(log, files);
    fileData := [];
    for k := 0 to |uniqueFiles|
      invariant fileData == EntriesFor(stats, uniqueFiles[..k])
    {
      var file := uniqueFiles[k];
      var stat := FileStatOf(log, files, file);
      assert stat == stats(file);
      EntriesForPaths(stats, uniqueFiles[..k]);
      assert file !in uniqueFiles[..k];
      fileData := MapSet(fileData, file, stat);
      assert uniqueFiles[..k + 1] == uniqueFiles[..k] + [file];
      EntriesForAppend(stats, uniqueFiles[..k], file);
    }
    EntriesForPaths(stats, uniqueFiles);
    assert uniqueFiles[..|uniqueFiles|] == uniqueFiles;
  }

  // ---- properties of the aggregation ----

  lemma {:induction false} CountIsMultiplicity(s: seq<string>, x: string)
    ensures Count(s, x) == multiset(s)[x]
  {
    if s != [] {
      CountIsMultiplicity(s[1..], x);
      assert s == [s[0]] + s[1..];
    }
  }

  lemma {:induction false} CountKept(keys: seq<string>, x: string)
    requires !IsExcluded(x)
    ensures Count(Kept(keys), x) == Count(keys, x)
  {
    if keys != [] {
      CountKept(keys[1..], x);
      var head := if IsExcluded(keys[0]) then [] else [keys[0]];
      CountAppend(head, Kept(keys[1..]), x);
    }
  }

  lemma {:induction false} CountAppend(a: seq<string>, b: seq<string>, x: string)
    ensures Count(a + b, x) == Count(a, x) + Count(b, x)
  {
    if a != [] {
      assert (a + b)[1..] == a[1..] + b;
      CountAppend(a[1..], b, x);
    } else {
      assert a + b == b;
    }
  }

  lemma {:induction false} CountKeysOf(lines: seq<string>, x: string)
    ensures Count(KeysOf(lines), x) == |MatchingLines(lines, x)|
  {
    if lines != [] {
      CountKeysOf(lines[1..], x);
    }
  }

  lemma {:induction false} KeptFirstIndex(keys: seq<string>, x: string, y: string)
    requires x in Kept(keys) && y in Kept(keys) && x in keys && y in keys
    requires FirstIndex(Kept(keys), x) < FirstIndex(Kept(keys), y)
    ensures FirstIndex(keys, x) < FirstIndex(keys, y)
  {
    var rest := Kept(keys[1..]);
    KeptMembers(keys);
    KeptMembers(keys[1..]);
    if IsExcluded(keys[0]) {
      assert Kept(keys) == rest;
      KeptFirstIndex(keys[1..], x, y);
    } else if keys[0] != x && keys[0] != y {
      assert Kept(keys) == [keys[0]] + rest;
      KeptFirstIndex(keys[1..], x, y);
    } else {
      assert Kept(keys) == [keys[0]] + rest;
    }
  }

  /** The keys of the aggregated map are exactly the distinct non-excluded
      last tab-fields of the log's lines, each once; in particular no
      excluded path, and never the empty key of a blank separator line. */
  lemma AggregateKeys(log: string)
    ensures var agg := Aggregate(log);
      && DistinctPaths(agg)
      && (forall k :: k in Paths(agg) <==> k in KeysOf(Lines(log)) && !IsExcluded(k))
      && (forall i :: 0 <= i < |agg| ==> !IsExcluded(agg[i].path) && agg[i].path != [])
  {
    var files := Files(log);
    var agg := Aggregate(log);
    KeptMembers(KeysOf(Lines(log)));
    EntriesForPaths(StatsOf(log, files), Distinct(files));
    assert Paths(agg) == Distinct(files);
    forall i | 0 <= i < |agg| ensures !IsExcluded(agg[i].path) {
      assert Paths(agg)[i] in Distinct(files);
    }
  }

  /** Exclusion compares whole paths: `package.json` at the top level is
      excluded, the same name in a sub-directory is not. */
  lemma ExclusionIsExact(top: string, nested: string)
    requires top == "package.json" && nested == "sub/" + top
    ensures IsExcluded(top) && !IsExcluded(nested)
  {
    assert ExcludedFiles[1] == top;
    assert |nested| == 16;
    forall i | 0 <= i < |ExcludedFiles| ensures ExcludedFiles[i] != nested {
      assert |ExcludedFiles[i]| != 16;
    }
  }

  /** Keys are inserted in order of their first occurrence in the log. */
  lemma AggregateKeyOrder(log: string)
    ensures var agg := Aggregate(log); var keys := KeysOf(Lines(log));
      forall i, j :: 0 <= i < j < |agg| ==>
        agg[i].path in keys && agg[j].path in keys &&
        FirstIndex(keys, agg[i].path) < FirstIndex(keys, agg[j].path)
  {
    var files := Files(log);
    var agg := Aggregate(log);
    var keys := KeysOf(Lines(log));
    var d := Distinct(files);
    KeptMembers(keys);
    forall i, j | 0 <= i < j < |agg|
      ensures agg[i].path in keys && agg[j].path in keys
      ensures FirstIndex(keys, agg[i].path) < FirstIndex(keys, agg[j].path)
    {
      assert d[i] == agg[i].path && d[j] == agg[j].path;
      assert d[i] in files && d[j] in files;
      KeptFirstIndex(keys, d[i], d[j]);
    }
  }

  /** `commitCount` of a file is the number of log lines whose last tab-field
      is that file: at least one, and a function of the multiset of keys
      only, not of line order. */
  lemma CommitCountIsLineCount(log: string, i: nat)
    requires i < |Aggregate(log)|
    ensures var e := Aggregate(log)[i];
      && e.stat.commitCount == |MatchingLines(Lines(log), e.path)|
      && e.stat.commitCount == multiset(KeysOf(Lines(log)))[e.path]
      && e.stat.commitCount >= 1
  {
    var files := Files(log);
    var lines := Lines(log);
    var f := Aggregate(log)[i].path;
    assert f in Distinct(files);
    KeptMembers(KeysOf(lines));
    CountKept(KeysOf(lines), f);
    CountKeysOf(lines, f);
    CountIsMultiplicity(KeysOf(lines), f);
  }

  /** Filtering distributes over concatenation: matching lines keep their
      order. */
  lemma {:induction false} MatchingLinesAppend(a: seq<string>, b: seq<string>, file: string)
    ensures MatchingLines(a + b, file) == MatchingLines(a, file) + MatchingLines(b, file)
  {
    if a == [] {
      assert a + b == b;
    } else {
      assert (a + b)[0] == a[0];
      assert (a + b)[1..] == a[1..] + b;
      MatchingLinesAppend(a[1..], b, file);
    }
  }

  /** Reordering the lines of the log changes no file's number of matching
      lines, so no `commitCount`. */
  lemma {:induction false} CommitCountOrderIndependent(l1: seq<string>, l2: seq<string>, file: string)
    requires multiset(l1) == multiset(l2)
    ensures |MatchingLines(l1, file)| == |MatchingLines(l2, file)|
    decreases |l1|
  {
    if l1 != [] {
      var x := l1[0];
      assert x in multiset(l2);
      var k :| 0 <= k < |l2| && l2[k] == x;
      var rest := l2[..k] + l2[k + 1..];
      assert l2 == l2[..k] + ([x] + l2[k + 1..]);
      assert l1 == [x] + l1[1..];
      assert multiset(l2) == multiset(l2[..k]) + multiset{x} + multiset(l2[k + 1..]);
      assert multiset(rest) == multiset(l2[..k]) + multiset(l2[k + 1..]);
      assert multiset(l1) == multiset{x} + multiset(l1[1..]);
      assert multiset(l1[1..]) == multiset(l1) - multiset{x};
      assert multiset(rest) == multiset(l2) - multiset{x};
      CommitCountOrderIndependent(l1[1..], rest, file);
      MatchingLinesAppend(l2[..k], [x] + l2[k + 1..], file);
      MatchingLinesAppend([x], l2[k + 1..], file);
      MatchingLinesAppend(l2[..k], l2[k + 1..], file);
    } else {
      assert l2 == [];
    }
  }

  /** `getFileHistory(log, f)` holds exactly the matching lines: splitting it
      again gives them back in order, and it is empty when none match. */
  lemma GetFileHistoryLines(log: string, file: string)
    ensures var m := MatchingLines(Lines(log), file);
      && (m != [] ==> Split(GetFileHistory(log, file), EOL) == m)
      && (m == [] ==> GetFileHistory(log, file) == [])
      && (forall l :: l in Split(GetFileHistory(log, file), EOL) && m != [] ==> FileKey(l) == file)
  {
    var lines := Lines(log);
    var m := MatchingLines(lines, file);
    MatchingMembers(lines, file);
    if m != [] {
      forall i | 0 <= i < |m| ensures EOL !in m[i] {
        assert m[i] in lines;
      }
      SplitJoin(m, EOL);
    }
  }

  // Independent reading of the totals: every field parses, and the plain sum.

  predicate AdditionsParse(lines: seq<string>)
  {
    forall i :: 0 <= i < |lines| ==> LineCounts(lines[i]).additions.Some?
  }

  predicate DeletionsParse(lines: seq<string>)
  {
    forall i :: 0 <= i < |lines| ==> LineCounts(lines[i]).deletions.Some?
  }

  function AdditionsSum(lines: seq<string>): nat
  {
    if lines == [] then 0
    else OrZero(LineCounts(lines[0]).additions) + AdditionsSum(lines[1..])
  }

  function DeletionsSum(lines: seq<string>): nat
  {
    if lines == [] then 0
    else OrZero(LineCounts(lines[0]).deletions) + DeletionsSum(lines[1..])
  }

  lemma {:induction false} SumsAppend(a: seq<string>, b: seq<string>)
    ensures AdditionsSum(a + b) == AdditionsSum(a) + AdditionsSum(b)
    ensures DeletionsSum(a + b) == DeletionsSum(a) + DeletionsSum(b)
  {
    if a == [] {
      assert a + b == b;
    } else {
      assert (a + b)[1..] == a[1..] + b;
      SumsAppend(a[1..], b);
    }
  }

  /** The reduce with NaN poisoning: the sum of the parsed fields when every
      line parses, NaN as soon as one does not. */
  lemma SumCountsPoison(lines: seq<string>)
    ensures SumCounts(CountsOf(lines)).additions
         == if AdditionsParse(lines) then Some(AdditionsSum(lines)) else None
    ensures SumCounts(CountsOf(lines)).deletions
         == if DeletionsParse(lines) then Some(DeletionsSum(lines)) else None
  {
    AdditionsPoison(lines);
    DeletionsPoison(lines);
  }

  lemma {:induction false} AdditionsPoison(lines: seq<string>)
    ensures SumCounts(CountsOf(lines)).additions
         == if AdditionsParse(lines) then Some(AdditionsSum(lines)) else None
  {
    if lines != [] {
      var n := |lines| - 1;
      var p := lines[..n];
      var c := LineCounts(lines[n]);
      assert CountsOf(lines)[..n] == CountsOf(p);
      assert CountsOf(lines)[n] == c;
      AdditionsPoison(p);
      assert lines == p + [lines[n]];
      SumsAppend(p, [lines[n]]);
      assert AdditionsSum([lines[n]]) == OrZero(c.additions);
      assert AdditionsParse(lines) <==> AdditionsParse(p) && c.additions.Some? by {
        assert forall i :: 0 <= i < n ==> lines[i] == p[i];
      }
    }
  }

  lemma {:induction false} DeletionsPoison(lines: seq<string>)
    ensures SumCounts(CountsOf(lines)).deletions
         == if DeletionsParse(lines) then Some(DeletionsSum(lines)) else None
  {
    if lines != [] {
      var n := |lines| - 1;
      var p := lines[..n];
      var c := LineCounts(lines[n]);
      assert CountsOf(lines)[..n] == CountsOf(p);
      assert CountsOf(lines)[n] == c;
      DeletionsPoison(p);
      assert lines == p + [lines[n]];
      SumsAppend(p, [lines[n]]);
      assert DeletionsSum([lines[n]]) == OrZero(c.deletions);
      assert DeletionsParse(lines) <==> DeletionsParse(p) && c.deletions.Some? by {
        assert forall i :: 0 <= i < n ==> lines[i] == p[i];
      }
    }
  }

  /** Each file's additions (deletions) are the sum of the parsed first
      (second) fields of its lines when all of them parse, and 0 as soon as
      one of them is a binary marker or missing: never NaN. */
  lemma AggregateTotals(log: string, i: nat)
    requires i < |Aggregate(log)|
    ensures var e := Aggregate(log)[i];
      var m := MatchingLines(Lines(log), e.path);
      && e.stat.additions == (if AdditionsParse(m) then AdditionsSum(m) else 0)
      && e.stat.deletions == (if DeletionsParse(m) then DeletionsSum(m) else 0)
  {
    var files := Files(log);
    var f := Aggregate(log)[i].path;
    var m := MatchingLines(Lines(log), f);
    assert f in Distinct(files);
    KeptMembers(KeysOf(Lines(log)));
    assert f in KeysOf(Lines(log));
    var j :| 0 <= j < |Lines(log)| && KeysOf(Lines(log))[j] == f;
    MatchingMembers(Lines(log), f);
    assert Lines(log)[j] in m;
    GetFileHistoryLines(log, f);
    SumCountsPoison(m);
  }

  /** One binary entry (`-` markers) for a file zeroes both of its totals,
      while the entry still counts as a commit. */
  lemma BinaryEntryZeroesTotals(log: string, file: string)
    requires "-\t-\t" + file in Lines(log)
    requires !IsExcluded(file) && TAB !in file
    ensures var agg := Aggregate(log);
      exists i :: 0 <= i < |agg| && agg[i].path == file
        && agg[i].stat.additions == 0 && agg[i].stat.deletions == 0
        && agg[i].stat.commitCount >= 1
  {
    var line := "-\t-\t" + file;
    var agg := Aggregate(log);
    BinaryLine(file);
    var i := KeyPresent(log, file);
    var m := MatchingLines(Lines(log), file);
    MatchingMembers(Lines(log), file);
    assert line in m;
    var j :| 0 <= j < |m| && m[j] == line;
    assert LineCounts(m[j]).additions == None && LineCounts(m[j]).deletions == None;
    AggregateTotals(log, i);
    CommitCountIsLineCount(log, i);
  }

  lemma BinaryLine(file: string)
    requires TAB !in file
    ensures FileKey("-\t-\t" + file) == file
    ensures LineCounts("-\t-\t" + file) == Counts(None, None)
  {
    assert "-\t-\t" + file == "-" + [TAB] + "-" + [TAB] + file;
    ScenarioFields("-", "-", file);
  }

  lemma KeyPresent(log: string, file: string) returns (i: nat)
    requires file in KeysOf(Lines(log)) && !IsExcluded(file)
    ensures i < |Aggregate(log)| && Aggregate(log)[i].path == file
  {
    AggregateKeys(log);
    assert file in Paths(Aggregate(log));
    i :| i < |Aggregate(log)| && Paths(Aggregate(log))[i] == file;
  }

  /** A log whose every line is excluded (blank separators, lockfiles)
      aggregates to the empty map. */
  lemma OnlyExcludedIsEmpty(log: string)
    requires forall i :: 0 <= i < |Lines(log)| ==> IsExcluded(FileKey(Lines(log)[i]))
    ensures Aggregate(log) == []
  {
    var keys := KeysOf(Lines(log));
    forall i | 0 <= i < |keys| ensures IsExcluded(keys[i]) {
      assert keys[i] == FileKey(Lines(log)[i]);
    }
    KeptAllExcluded(keys);
    assert Files(log) == [];
    assert Distinct(Files(log)) == [];
  }

  /** A numstat line `<a>\t<d>\t<file>` counts `parseInt(a)` additions and
      `parseInt(d)` deletions (NaN as `None`); the empty line counts 0 and 0. */
  lemma LineCountsFields(a: string, d: string, file: string)
    requires TAB !in a && TAB !in d && TAB !in file
    ensures LineCounts(a + [TAB] + d + [TAB] + file) == Counts(ParseInt(a), ParseInt(d))
    ensures LineCounts([]) == Counts(Some(0), Some(0))
  {
    ScenarioFields(a, d, file);
  }

  lemma ScenarioFields(a: string, d: string, file: string)
    requires TAB !in a && TAB !in d && TAB !in file
    ensures Split(a + [TAB] + d + [TAB] + file, TAB) == [a, d, file]
  {
    var parts := [a, d, file];
    assert parts[1..] == [d, file];
    assert parts[1..][1..] == [file];
    assert Join([d, file], TAB) == d + [TAB] + file;
    assert Join(parts, TAB) == a + [TAB] + (d + [TAB] + file);
    assert a + [TAB] + (d + [TAB] + file) == a + [TAB] + d + [TAB] + file;
    SplitJoin(parts, TAB);
  }

  lemma ScenarioLogShape(log: string, l1: string, l2: string, l3: string)
    requires log == "3\t1\tfoo.txt\n\n2\t0\tfoo.txt\n\n0\t0\tbar.bin\n"
    requires l1 == "3\t1\tfoo.txt" && l2 == "2\t0\tfoo.txt" && l3 == "0\t0\tbar.bin"
    ensures log == l1 + [EOL] + ([] + [EOL] + (l2 + [EOL] + ([] + [EOL] + (l3 + [EOL] + []))))
  {
  }

  lemma ScenarioLines(log: string, l1: string, l2: string, l3: string)
    requires log == "3\t1\tfoo.txt\n\n2\t0\tfoo.txt\n\n0\t0\tbar.bin\n"
    requires l1 == "3\t1\tfoo.txt" && l2 == "2\t0\tfoo.txt" && l3 == "0\t0\tbar.bin"
    ensures Lines(log) == [l1, "", l2, "", l3, ""]
  {
    ScenarioLogShape(log, l1, l2, l3);
    assert EOL !in l1 && EOL !in l2 && EOL !in l3;
    SplitBlankSeparated(l1, l2, l3);
  }

  /** Three lines each followed by a blank line split into six fields. */
  lemma SplitBlankSeparated(l1: string, l2: string, l3: string)
    requires EOL !in l1 && EOL !in l2 && EOL !in l3
    ensures Split(l1 + [EOL] + ([] + [EOL] + (l2 + [EOL] + ([] + [EOL] + (l3 + [EOL] + [])))), EOL)
         == [l1, "", l2, "", l3, ""]
  {
    var s5: string := [];
    var s4 := l3 + [EOL] + s5;
    var s3 := [] + [EOL] + s4;
    var s2 := l2 + [EOL] + s3;
    var s1 := [] + [EOL] + s2;
    assert Split(s5, EOL) == [""];
    SplitCons(l3, s5, EOL);
    SplitCons([], s4, EOL);
    SplitCons(l2, s3, EOL);
    SplitCons([], s2, EOL);
    SplitCons(l1, s1, EOL);
  }

  lemma ScenarioKey(a: string, d: string, file: string, line: string)
    requires TAB !in a && TAB !in d && TAB !in file
    requires line == a + [TAB] + d + [TAB] + file
    ensures FileKey(line) == file
  {
    ScenarioFields(a, d, file);
  }

  lemma ScenarioKeys(l1: string, l2: string, l3: string)
    requires l1 == "3\t1\tfoo.txt" && l2 == "2\t0\tfoo.txt" && l3 == "0\t0\tbar.bin"
    ensures FileKey(l1) == "foo.txt" && FileKey(l2) == "foo.txt" && FileKey(l3) == "bar.bin"
    ensures FileKey("") == ""
  {
    assert l1 == "3" + [TAB] + "1" + [TAB] + "foo.txt";
    assert l2 == "2" + [TAB] + "0" + [TAB] + "foo.txt";
    assert l3 == "0" + [TAB] + "0" + [TAB] + "bar.bin";
    ScenarioKey("3", "1", "foo.txt", l1);
    ScenarioKey("2", "0", "foo.txt", l2);
    ScenarioKey("0", "0", "bar.bin", l3);
    SplitNoSep("", TAB);
  }

  lemma ScenarioFiles(log: string, l1: string, l2: string, l3: string)
    requires log == "3\t1\tfoo.txt\n\n2\t0\tfoo.txt\n\n0\t0\tbar.bin\n"
    requires l1 == "3\t1\tfoo.txt" && l2 == "2\t0\tfoo.txt" && l3 == "0\t0\tbar.bin"
    ensures Files(log) == ["foo.txt", "foo.txt", "bar.bin"]
  {
    ScenarioLines(log, l1, l2, l3);
    ScenarioKeysOf(l1, l2, l3, Lines(log));
    ScenarioKept(KeysOf(Lines(log)), "foo.txt", "bar.bin");
  }

  lemma ScenarioKeysOf(l1: string, l2: string, l3: string, lines: seq<string>)
    requires l1 == "3\t1\tfoo.txt" && l2 == "2\t0\tfoo.txt" && l3 == "0\t0\tbar.bin"
    requires lines == [l1, "", l2, "", l3, ""]
    ensures KeysOf(lines) == ["foo.txt", "", "foo.txt", "", "bar.bin", ""]
  {
    ScenarioKeys(l1, l2, l3);
  }

  lemma ScenarioKept(keys: seq<string>, a: string, b: string)
    requires a == "foo.txt" && b == "bar.bin"
    requires keys == [a, "", a, "", b, ""]
    ensures Kept(keys) == [a, a, b]
  {
    assert !IsExcluded(a) && !IsExcluded(b) && IsExcluded("");
    assert keys[1..] == ["", a, "", b, ""];
    assert keys[1..][1..] == [a, "", b, ""];
    assert keys[1..][1..][1..] == ["", b, ""];
    assert keys[1..][1..][1..][1..] == [b, ""];
    assert keys[1..][1..][1..][1..][1..] == [""];
    assert Kept([""]) == [];
    assert Kept([b, ""]) == [b];
    assert Kept(["", b, ""]) == [b];
    assert Kept([a, "", b, ""]) == [a, b];
    assert Kept(["", a, "", b, ""]) == [a, b];
  }

  lemma ScenarioDistinct(files: seq<string>)
    requires files == ["foo.txt", "foo.txt", "bar.bin"]
    ensures Distinct(files) == ["foo.txt", "bar.bin"]
  {
    assert files[..1] == ["foo.txt"];
    assert Distinct(files[..1]) == ["foo.txt"];
    assert files[..2][..1] == files[..1];
    assert Distinct(files[..2]) == ["foo.txt"];
    assert files[..2] == files[..|files| - 1];
  }

  lemma {:induction false} KeptAllExcluded(keys: seq<string>)
    requires forall i :: 0 <= i < |keys| ==> IsExcluded(keys[i])
    ensures Kept(keys) == []
  {
    if keys != [] {
      KeptAllExcluded(keys[1..]);
    }
  }

  /** The worked example: two commits touch foo.txt, one touches bar.bin;
      blank separator lines create no entry. */
  lemma ScenarioTwoFiles(log: string)
    requires log == "3\t1\tfoo.txt\n\n2\t0\tfoo.txt\n\n0\t0\tbar.bin\n"
    ensures Aggregate(log)
         == [Entry("foo.txt", FileStat(5, 1, 2)), Entry("bar.bin", FileStat(0, 0, 1))]
  {
    var l1, l2, l3 := "3\t1\tfoo.txt", "2\t0\tfoo.txt", "0\t0\tbar.bin";
    ScenarioFiles(log, l1, l2, l3);
    ScenarioDistinct(Files(log));
    AggregateOfTwo(log, "foo.txt", "bar.bin");
    ScenarioStats(log, l1, l2, l3);
  }

  lemma AggregateOfTwo(log: string, a: string, b: string)
    requires Distinct(Files(log)) == [a, b]
    ensures Aggregate(log)
         == [Entry(a, FileStatOf(log, Files(log), a)), Entry(b, FileStatOf(log, Files(log), b))]
  {
  }

  lemma ScenarioMatching(l1: string, l2: string, l3: string, lines: seq<string>)
    requires l1 == "3\t1\tfoo.txt" && l2 == "2\t0\tfoo.txt" && l3 == "0\t0\tbar.bin"
    requires lines == [l1, "", l2, "", l3, ""]
    ensures MatchingLines(lines, "foo.txt") == [l1, l2]
    ensures MatchingLines(lines, "bar.bin") == [l3]
  {
    ScenarioKeys(l1, l2, l3);
    MatchingByKeys(l1, l2, l3, "", "foo.txt", "bar.bin");
  }

  /** Filtering the example's six lines, knowing only their keys. */
  lemma MatchingByKeys(l1: string, l2: string, l3: string, blank: string, a: string, b: string)
    requires FileKey(l1) == a && FileKey(l2) == a && FileKey(l3) == b
    requires FileKey(blank) != a && FileKey(blank) != b && a != b
    ensures MatchingLines([l1, blank, l2, blank, l3, blank], a) == [l1, l2]
    ensures MatchingLines([l1, blank, l2, blank, l3, blank], b) == [l3]
  {
    var t6: seq<string> := [];
    var t5 := [blank] + t6;
    var t4 := [l3] + t5;
    var t3 := [blank] + t4;
    var t2 := [l2] + t3;
    var t1 := [blank] + t2;
    assert [l1, blank, l2, blank, l3, blank] == [l1] + t1;
    MatchingSkip(blank, t6, a);
    MatchingSkip(l3, t5, a);
    MatchingSkip(blank, t4, a);
    MatchingKeep(l2, t3, a);
    MatchingSkip(blank, t2, a);
    MatchingKeep(l1, t1, a);
    MatchingSkip(blank, t6, b);
    MatchingKeep(l3, t5, b);
    MatchingSkip(blank, t4, b);
    MatchingSkip(l2, t3, b);
    MatchingSkip(blank, t2, b);
    MatchingSkip(l1, t1, b);
  }

  lemma MatchingKeep(l: string, rest: seq<string>, file: string)
    requires FileKey(l) == file
    ensures MatchingLines([l] + rest, file) == [l] + MatchingLines(rest, file)
  {
    assert ([l] + rest)[1..] == rest;
  }

  lemma MatchingSkip(l: string, rest: seq<string>, file: string)
    requires FileKey(l) != file
    ensures MatchingLines([l] + rest, file) == MatchingLines(rest, file)
  {
    assert ([l] + rest)[1..] == rest;
  }

  lemma ScenarioLineCounts(a: string, d: string, file: string, line: string, x: nat, y: nat)
    requires TAB !in file && |a| == 1 && |d| == 1 && IsDigit(a[0]) && IsDigit(d[0])
    requires x == a[0] as int - '0' as int && y == d[0] as int - '0' as int
    requires line == a + [TAB] + d + [TAB] + file
    ensures LineCounts(line) == Counts(Some(x), Some(y))
  {
    ScenarioFields(a, d, file);
    assert a[..1] == a && d[..1] == d;
    assert a[..0] == [] && d[..0] == [];
    assert DecimalValue(a) == DecimalValue([]) * 10 + (a[0] as int - '0' as int);
    assert DecimalValue(d) == DecimalValue([]) * 10 + (d[0] as int - '0' as int);
  }

  lemma ScenarioSumFoo(l1: string, l2: string)
    requires l1 == "3\t1\tfoo.txt" && l2 == "2\t0\tfoo.txt"
    ensures SumCounts(CountsOf([l1, l2])) == Counts(Some(5), Some(1))
  {
    assert l1 == "3" + [TAB] + "1" + [TAB] + "foo.txt";
    assert l2 == "2" + [TAB] + "0" + [TAB] + "foo.txt";
    ScenarioLineCounts("3", "1", "foo.txt", l1, 3, 1);
    ScenarioLineCounts("2", "0", "foo.txt", l2, 2, 0);
    SumOfTwo(l1, l2, Counts(Some(3), Some(1)), Counts(Some(2), Some(0)));
  }

  lemma ScenarioSumBar(l3: string)
    requires l3 == "0\t0\tbar.bin"
    ensures SumCounts(CountsOf([l3])) == Counts(Some(0), Some(0))
  {
    assert l3 == "0" + [TAB] + "0" + [TAB] + "bar.bin";
    ScenarioLineCounts("0", "0", "bar.bin", l3, 0, 0);
    SumOfOne(l3, Counts(Some(0), Some(0)));
  }

  lemma SumOfTwo(l1: string, l2: string, c1: Counts, c2: Counts)
    requires LineCounts(l1) == c1 && LineCounts(l2) == c2
    ensures SumCounts(CountsOf([l1, l2]))
         == Counts(Plus(Plus(Some(0), c1.additions), c2.additions),
                   Plus(Plus(Some(0), c1.deletions), c2.deletions))
  {
    var cs := CountsOf([l1, l2]);
    assert cs == [c1, c2];
    assert cs[..1] == [c1] && [c1][..0] == [];
    assert SumCounts([c1]) == Counts(Plus(Some(0), c1.additions), Plus(Some(0), c1.deletions));
  }

  lemma SumOfOne(l: string, c: Counts)
    requires LineCounts(l) == c
    ensures SumCounts(CountsOf([l])) == Counts(Plus(Some(0), c.additions), Plus(Some(0), c.deletions))
  {
    var cs := CountsOf([l]);
    assert cs == [c];
    assert cs[..0] == [];
  }

  lemma ScenarioStats(log: string, l1: string, l2: string, l3: string)
    requires log == "3\t1\tfoo.txt\n\n2\t0\tfoo.txt\n\n0\t0\tbar.bin\n"
    requires l1 == "3\t1\tfoo.txt" && l2 == "2\t0\tfoo.txt" && l3 == "0\t0\tbar.bin"
    ensures FileStatOf(log, Files(log), "foo.txt") == FileStat(5, 1, 2)
    ensures FileStatOf(log, Files(log), "bar.bin") == FileStat(0, 0, 1)
  {
    ScenarioLines(log, l1, l2, l3);
    ScenarioMatching(l1, l2, l3, Lines(log));
    assert Split(GetFileHistory(log, "foo.txt"), EOL) == [l1, l2] by {
      GetFileHistoryLines(log, "foo.txt");
    }
    assert Split(GetFileHistory(log, "bar.bin"), EOL) == [l3] by {
      GetFileHistoryLines(log, "bar.bin");
    }
    ScenarioSumFoo(l1, l2);
    ScenarioSumBar(l3);
    ScenarioFileCounts(log, l1, l2, l3);
  }

  lemma ScenarioFileCounts(log: string, l1: string, l2: string, l3: string)
    requires log == "3\t1\tfoo.txt\n\n2\t0\tfoo.txt\n\n0\t0\tbar.bin\n"
    requires l1 == "3\t1\tfoo.txt" && l2 == "2\t0\tfoo.txt" && l3 == "0\t0\tbar.bin"
    ensures Count(Files(log), "foo.txt") == 2 && Count(Files(log), "bar.bin") == 1
  {
    ScenarioFiles(log, l1, l2, l3);
    var files := Files(log);
    assert files[1..] == ["foo.txt", "bar.bin"] && files[1..][1..] == ["bar.bin"];
    assert Count(["bar.bin"], "foo.txt") == 0 && Count(["bar.bin"], "bar.bin") == 1;
    assert Count(["foo.txt", "bar.bin"], "foo.txt") == 1;
    assert Count(["foo.txt", "bar.bin"], "bar.bin") == 1;
  }
}
