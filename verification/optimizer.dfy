/**
 `optimize` (main.py:110-152) as a planner. Instead of creating
 directories and writing WebP files it returns the status pair together
 with the directories it would create and the writes it would perform, in
 order. The 8-digit numbers drawn with `randint` are supplied by the
 caller, one per source.
 */
module Optimizer {
  import opened Geometry
  import opened Paths
  import opened Naming
  import opened Profiles
  import opened Arithmetic
  import opened Wrappers

  const ProfileNotFound: string := "Profile not found"

  /** The bounds given to `randint`, both inclusive. */
  const MinDraw: int := 10000000
  const MaxDraw: int := 99999999

  /** One derivative to be saved: the directory, the file name, and the
      target size handed to `resize_and_crop`. */
  datatype PlannedWrite = PlannedWrite(dir: string, name: string, size: Size)

  /** The `(status, message)` pair `optimize` returns, with the planned
      `os.makedirs` calls and image writes. */
  datatype Outcome = Outcome(status: int, message: string, dirs: seq<string>, writes: seq<PlannedWrite>)

  /** The source's base name without its extension (main.py:134). */
  function Stem(path: string): string {
    SplitExt(Basename(path)).0
  }

  /** The per-source output directory (main.py:135). */
  function OutputDir(path: string): string {
    Join(Dirname(path), Stem(path))
  }

  /** The stem is a non-empty, separator-free prefix of a non-empty basename. */
  lemma StemSpec(path: string)
    requires Basename(path) != []
    ensures Stem(path) != [] && Stem(path) == Basename(path)[..|Stem(path)|]
    ensures Sep !in Stem(path)
  {
    var name := Basename(path);
    var stem := Stem(path);
    BasenameSpec(path);
    SplitExtSpec(name);
  }

  /** The output directory sits in the source's own directory and is named
      after the source's base name without its extension. */
  lemma OutputDirBesideSource(path: string)
    requires Basename(path) != []
    ensures Basename(OutputDir(path)) == Stem(path)
    ensures Dirname(OutputDir(path)) == Dirname(path)
  {
    StemSpec(path);
    BasenameOfJoin(Dirname(path), Stem(path));
    DirnameIsDirname(path);
    DirnameOfJoin(Dirname(path), Stem(path));
  }

  /** A source whose base name has no extension to split off gets its own
      path as output directory: `os.makedirs` is then asked to create a
      directory where the source file already is (main.py:137). */
  lemma OutputDirIsSource(dir: string, name: string)
    requires name != [] && Sep !in name && IsDirname(dir)
    requires SplitExt(name).1 == []
    ensures OutputDir(Join(dir, name)) == Join(dir, name)
  {
    var path := Join(dir, name);
    BasenameOfJoin(dir, name);
    DirnameOfJoin(dir, name);
    SplitExtSpec(name);
    assert Stem(path) == name;
  }

  /** Every source with a non-empty base name has, at the same position of
      `dirs`, a directory named after its stem and placed in the source's
      own directory. */
  predicate BesideSources(paths: seq<string>, dirs: seq<string>)
    requires |dirs| == |paths|
  {
    forall i {:trigger Basename(dirs[i])} :: 0 <= i < |paths| && Basename(paths[i]) != [] ==>
      Basename(dirs[i]) == Stem(paths[i]) && Dirname(dirs[i]) == Dirname(paths[i])
  }

  /** The write planned at flat position `x` of a batch with `k` size
      entries per source: it comes from source `x / k` and entry `x % k`,
      goes into that source's directory `dirs[x / k]`, is named with that
      source's number and the entry's key, and has the entry's size. */
  function WriteAt(dirs: seq<string>, draws: seq<int>, sizes: seq<SizeEntry>, x: nat): PlannedWrite
    requires |dirs| <= |draws| && |sizes| > 0 && x / |sizes| < |dirs|
    requires forall i :: 0 <= i < |draws| ==> draws[i] >= 0
  {
    var i, j := x / |sizes|, x % |sizes|;
    PlannedWrite(dirs[i], FileName(draws[i], sizes[j].key), sizes[j].size)
  }

  /** `writes` is what a batch plans for sources with directories `dirs`:
      one write per source and size entry, sources in order and, within a
      source, entries in order. */
  predicate PlansBatch(dirs: seq<string>, draws: seq<int>, sizes: seq<SizeEntry>,
                       writes: seq<PlannedWrite>)
    requires |dirs| <= |draws| && |sizes| > 0
    requires forall i :: 0 <= i < |draws| ==> draws[i] >= 0
  {
    && |writes| == |dirs| * |sizes|
    && forall x :: 0 <= x < |writes| ==>
         x / |sizes| < |dirs| && writes[x] == WriteAt(dirs, draws, sizes, x)
  }

  /** The writes planned for the sources with directories `dirs`,
      followed by the group of the next source, with directory `dir`, are
      the writes planned for `dirs + [dir]`. */
  lemma AppendGroup(dirs: seq<string>, dir: string, draws: seq<int>, sizes: seq<SizeEntry>,
                    writes: seq<PlannedWrite>, group: seq<PlannedWrite>)
    requires |dirs| < |draws| && |sizes| > 0
    requires forall m :: 0 <= m < |draws| ==> draws[m] >= 0
    requires PlansBatch(dirs, draws, sizes, writes)
    requires |group| == |sizes|
    requires forall j :: 0 <= j < |sizes| ==>
               group[j] == PlannedWrite(dir, FileName(draws[|dirs|], sizes[j].key), sizes[j].size)
    ensures PlansBatch(dirs + [dir], draws, sizes, writes + group)
  {
    var k, i, dirs' := |sizes|, |dirs|, dirs + [dir];
    assert |writes + group| == (i + 1) * k;
    forall x | 0 <= x < |writes| + k
      ensures x / k < i + 1 && (writes + group)[x] == WriteAt(dirs', draws, sizes, x)
    {
      if x < |writes| {
        WriteAtExtended(dirs, dir, draws, sizes, x);
      } else {
        WriteAtNext(dirs, dir, draws, sizes, x - |writes|);
      }
    }
  }

  /** Adding a source leaves the writes of the earlier sources unchanged. */
  lemma WriteAtExtended(dirs: seq<string>, dir: string, draws: seq<int>, sizes: seq<SizeEntry>, x: nat)
    requires |dirs| < |draws| && |sizes| > 0 && x / |sizes| < |dirs|
    requires forall m :: 0 <= m < |draws| ==> draws[m] >= 0
    ensures WriteAt(dirs + [dir], draws, sizes, x) == WriteAt(dirs, draws, sizes, x)
  {
    assert (dirs + [dir])[x / |sizes|] == dirs[x / |sizes|];
  }

  /** The write at position `j` of the added source's group is the added
      directory, that source's number and entry `j`. */
  lemma WriteAtNext(dirs: seq<string>, dir: string, draws: seq<int>, sizes: seq<SizeEntry>, j: nat)
    requires |dirs| < |draws| && j < |sizes|
    requires forall m :: 0 <= m < |draws| ==> draws[m] >= 0
    ensures (|dirs| * |sizes| + j) / |sizes| == |dirs|
    ensures WriteAt(dirs + [dir], draws, sizes, |dirs| * |sizes| + j)
            == PlannedWrite(dir, FileName(draws[|dirs|], sizes[j].key), sizes[j].size)
  {
    DivModUnique(|dirs| * |sizes| + j, |dirs|, j, |sizes|);
  }

  /** Two planned writes have the same directory and name exactly when they come from
      sources with the same output directory and the same drawn number, and
      from the same size entry. */
  lemma SameTargetIff(dirs: seq<string>, draws: seq<int>, sizes: seq<SizeEntry>,
                      writes: seq<PlannedWrite>, x: nat, y: nat)
    requires |dirs| <= |draws| && |sizes| > 0
    requires forall i :: 0 <= i < |draws| ==> draws[i] >= 0
    requires PlansBatch(dirs, draws, sizes, writes) && DistinctKeys(sizes)
    requires x < |writes| && y < |writes|
    requires 0 <= x / |sizes| < |dirs| && 0 <= y / |sizes| < |dirs|
    ensures (writes[x].dir == writes[y].dir && writes[x].name == writes[y].name)
            <==> (dirs[x / |sizes|] == dirs[y / |sizes|] && draws[x / |sizes|] == draws[y / |sizes|]
                  && x % |sizes| == y % |sizes|)
  {
    var k := |sizes|;
    assert writes[x] == WriteAt(dirs, draws, sizes, x);
    assert writes[y] == WriteAt(dirs, draws, sizes, y);
    SameNameIff(draws, sizes, x / k, x % k, y / k, y % k);
  }

  /** Names of two writes, in the same directory or not, agree exactly when
      their sources' numbers and their size entries agree. */
  lemma SameNameIff(draws: seq<int>, sizes: seq<SizeEntry>, i: nat, a: nat, j: nat, b: nat)
    requires i < |draws| && j < |draws| && a < |sizes| && b < |sizes|
    requires draws[i] >= 0 && draws[j] >= 0 && DistinctKeys(sizes)
    ensures FileName(draws[i], sizes[a].key) == FileName(draws[j], sizes[b].key)
            <==> draws[i] == draws[j] && a == b
  {
    assert sizes[a].key == sizes[b].key <==> a == b;
    FileNameInjective(draws[i], sizes[a].key, draws[j], sizes[b].key);
  }

  /** When no two sources sharing an output directory drew the same number,
      no planned write overwrites another. */
  lemma NoOverwrite(dirs: seq<string>, draws: seq<int>, sizes: seq<SizeEntry>,
                    writes: seq<PlannedWrite>, x: nat, y: nat)
    requires |dirs| <= |draws| && |sizes| > 0
    requires forall i :: 0 <= i < |draws| ==> draws[i] >= 0
    requires PlansBatch(dirs, draws, sizes, writes) && DistinctKeys(sizes)
    requires forall i, j :: 0 <= i < j < |dirs| && dirs[i] == dirs[j] ==> draws[i] != draws[j]
    requires x < y < |writes|
    ensures writes[x].dir != writes[y].dir || writes[x].name != writes[y].name
  {
    var k := |sizes|;
    SameTargetIff(dirs, draws, sizes, writes, x, y);
    if x / k == y / k && x % k == y % k {
      DivModUnique(y, x / k, x % k, k);
    }
  }

  /** Every planned name reads back as its source's number, written with
      eight digits, and its size entry's key. */
  lemma PlannedNameReadsBack(dirs: seq<string>, draws: seq<int>, sizes: seq<SizeEntry>,
                             writes: seq<PlannedWrite>, x: nat)
    requires |dirs| <= |draws| && |sizes| > 0
    requires forall i :: 0 <= i < |draws| ==> MinDraw <= draws[i] <= MaxDraw
    requires PlansBatch(dirs, draws, sizes, writes)
    requires x < |writes|
    ensures x / |sizes| < |dirs|
    ensures ParseFileName(writes[x].name) == Some((draws[x / |sizes|], sizes[x % |sizes|].key))
    ensures |writes[x].name| == 8 + 1 + |sizes[x % |sizes|].key| + |Extension|
  {
    var k := |sizes|;
    FileNameRoundTrip(draws[x / k], sizes[x % k].key);
    EightDigitFileName(draws[x / k], sizes[x % k].key);
  }

  /** `optimize`: an unknown profile is refused before anything is planned;
      otherwise every source gets its output directory and one write per
      size entry of the profile, all named with the number drawn for that
      source, and the message is the last source's directory (empty for an
      empty batch). */
  method Optimize(paths: seq<string>, profile: string, draws: seq<int>) returns (r: Outcome)
    requires |draws| == |paths|
    requires forall i :: 0 <= i < |draws| ==> MinDraw <= draws[i] <= MaxDraw
    ensures profile !in ProfileNames <==> r.status == 1
    ensures profile !in ProfileNames ==> r == Outcome(1, ProfileNotFound, [], [])
    ensures profile in ProfileNames ==> r.status == 0
    ensures profile in ProfileNames && paths == [] ==> r.message == ""
    ensures profile in ProfileNames ==>
              |r.dirs| == |paths| && forall i {:trigger OutputDir(paths[i])} :: 0 <= i < |paths| ==> r.dirs[i] == OutputDir(paths[i])
    ensures profile in ProfileNames ==>
              BesideSources(paths, r.dirs)
    ensures profile in ProfileNames && paths != [] ==> r.message == r.dirs[|paths| - 1]
    ensures profile in ProfileNames ==>
              PlansBatch(r.dirs, draws, ImageSizes(Lookup(profile).value), r.writes)
  {
    var found := Lookup(profile);
    if found.None? {
      return Outcome(1, ProfileNotFound, [], []);
    }
    r := PlanBatch(paths, draws, ImageSizes(found.value));
  }

  /** The loop of `optimize` for a known profile with size entries `sizes`
      (main.py:132-152): every source gets its output directory and one
      write per size entry, and the message is the last source's directory. */
  method PlanBatch(paths: seq<string>, draws: seq<int>, sizes: seq<SizeEntry>) returns (r: Outcome)
    requires |draws| == |paths| && |sizes| > 0
    requires forall i :: 0 <= i < |draws| ==> draws[i] >= 0
    ensures r.status == 0
    ensures paths == [] ==> r.message == ""
    ensures |r.dirs| == |paths| && forall i {:trigger OutputDir(paths[i])} :: 0 <= i < |paths| ==> r.dirs[i] == OutputDir(paths[i])
    ensures BesideSources(paths, r.dirs)
    ensures paths != [] ==> r.message == r.dirs[|paths| - 1]
    ensures PlansBatch(r.dirs, draws, sizes, r.writes)
  {
    var dirs := SourceDirs(paths);
    var savedPath := if |dirs| == 0 then "" else dirs[|dirs| - 1];
    var writes := PlanWrites(dirs, draws, sizes);
    return Outcome(0, savedPath, dirs, writes);
  }

  /** The directories of the loop of `optimize` (main.py:133-137): one
      output directory per source, in order, each named after its source's
      base name without the extension and placed beside the source. */
  method SourceDirs(paths: seq<string>) returns (dirs: seq<string>)
    ensures |dirs| == |paths| && forall i {:trigger OutputDir(paths[i])} :: 0 <= i < |paths| ==> dirs[i] == OutputDir(paths[i])
    ensures BesideSources(paths, dirs)
  {
    dirs := seq(|paths|, i requires 0 <= i < |paths| => OutputDir(paths[i]));
    forall i | 0 <= i < |paths| && Basename(paths[i]) != []
      ensures Basename(dirs[i]) == Stem(paths[i]) && Dirname(dirs[i]) == Dirname(paths[i])
    {
      OutputDirBesideSource(paths[i]);
    }
  }

  /** The writes of the loop of `optimize` (main.py:133-149): source by
      source, the group of writes into that source's directory `dirs[i]`. */
  method PlanWrites(dirs: seq<string>, draws: seq<int>, sizes: seq<SizeEntry>)
    returns (writes: seq<PlannedWrite>)
    requires |dirs| <= |draws| && |sizes| > 0
    requires forall i :: 0 <= i < |draws| ==> draws[i] >= 0
    ensures PlansBatch(dirs, draws, sizes, writes)
  {
    writes := [];
    var i := 0;
    while i < |dirs|
      invariant 0 <= i <= |dirs|
      invariant PlansBatch(dirs[..i], draws, sizes, writes)
    {
      var group := PlanSource(dirs[i], draws[i], sizes);
      AppendGroup(dirs[..i], dirs[i], draws, sizes, writes, group);
      assert dirs[..i] + [dirs[i]] == dirs[..i + 1];
      writes := writes + group;
      i := i + 1;
    }
    assert dirs[..|dirs|] == dirs;
  }

  /** The writes of one source: one per size entry, in the profile's order,
      all in `dir` and all named with the same number `n` (main.py:143-149). */
  method PlanSource(dir: string, n: nat, sizes: seq<SizeEntry>) returns (group: seq<PlannedWrite>)
    ensures |group| == |sizes|
    ensures forall j :: 0 <= j < |sizes| ==>
              group[j] == PlannedWrite(dir, FileName(n, sizes[j].key), sizes[j].size)
  {
    group := [];
    var j := 0;
    while j < |sizes|
      invariant 0 <= j <= |sizes| && |group| == j
      invariant forall m :: 0 <= m < j ==>
                  group[m] == PlannedWrite(dir, FileName(n, sizes[m].key), sizes[m].size)
    {
      group := group + [PlannedWrite(dir, FileName(n, sizes[j].key), sizes[j].size)];
      j := j + 1;
    }
  }
}
