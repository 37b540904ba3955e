/** `create_image_lists`: the walk over class directories, producing an
    insertion-ordered dictionary from label to that class's split. */
module ImageLists {
  import opened Wrappers
  import opened Paths
  import opened Labels
  import opened Split

  /** The record stored per label: the directory name and its three lists. */
  datatype LabelLists = LabelLists(dir: string, training: seq<string>, testing: seq<string>,
                                   validation: seq<string>)

  /** A Python dict from label to record: `labels` is the key order
      (insertion order, which `list(image_lists.keys())` exposes). */
  datatype Dict = Dict(labels: seq<string>, entries: map<string, LabelLists>)

  predicate Valid(d: Dict) {
    && (forall i, j :: 0 <= i < j < |d.labels| ==> d.labels[i] != d.labels[j])
    && d.entries.Keys == set l | l in d.labels
  }

  const EmptyDict: Dict := Dict([], map[])

  /** `result[label] = value`: an existing key keeps its position and gets the
      new value; a new key goes last. */
  function Put(d: Dict, key: string, value: LabelLists): (r: Dict)
    requires Valid(d)
    ensures Valid(r)
    ensures r.entries == d.entries[key := value]
    ensures key in d.entries ==> r.labels == d.labels
    ensures key !in d.entries ==> r.labels == d.labels + [key]
  {
    if key in d.entries then Dict(d.labels, d.entries[key := value])
    else Dict(d.labels + [key], d.entries[key := value])
  }

  /** The image directory, the file system's `gfile.Glob`, and the hash
      (the integer value of the SHA-1 hex digest of a name). */
  datatype Env = Env(imageDir: string, glob: string -> seq<string>, hash: string -> nat)

  /** The extensions globbed for, in order. */
  const Extensions: seq<string> := ["jpg", "jpeg", "JPG", "JPEG", "bin"]

  /** The files found for `exts`, extension by extension. */
  function GlobAll(env: Env, dirName: string, exts: seq<string>): (files: seq<string>)
  {
    if exts == [] then []
    else env.glob(Join3(env.imageDir, dirName, "*." + exts[0])) + GlobAll(env, dirName, exts[1..])
  }

  /** `file_list` for a class directory. */
  function ClassFiles(env: Env, dirName: string): seq<string> {
    GlobAll(env, dirName, Extensions)
  }

  /** The dictionary entry one walked directory produces, or `None` when the
      loop skips it (its basename equals `image_dir`, or no files match). */
  function DirEntry(env: Env, testingPct: real, validationPct: real, subDir: string)
    : (r: Option<(string, LabelLists)>)
    ensures r.Some? ==> r.value.1.dir == Basename(subDir) && r.value.0 == Normalize(Basename(subDir))
    ensures r.Some? <==> Basename(subDir) != env.imageDir && ClassFiles(env, Basename(subDir)) != []
  {
    var dirName := Basename(subDir);
    if dirName == env.imageDir then None
    else
      var files := ClassFiles(env, dirName);
      if files == [] then None
      else
        var part := SplitFiles(files, env.hash, testingPct, validationPct);
        Some((Normalize(dirName), LabelLists(dirName, part.training, part.testing, part.validation)))
  }

  /** The entry each walked directory yields under a fixed configuration. */
  function DirEntries(env: Env, testingPct: real, validationPct: real): string -> Option<(string, LabelLists)> {
    (subDir: string) => DirEntry(env, testingPct, validationPct, subDir)
  }

  /** Directory `subDir` yields an entry under label `name`. */
  predicate Yields(entry: string -> Option<(string, LabelLists)>, subDir: string, name: string) {
    entry(subDir).Some? && entry(subDir).value.0 == name
  }

  /** The loop body for one directory: `result[label_name] = {...}` unless
      the directory is skipped. */
  function Step(entry: string -> Option<(string, LabelLists)>, acc: Dict, subDir: string): (r: Dict)
    requires Valid(acc)
    ensures Valid(r)
  {
    match entry(subDir)
    case None => acc
    case Some((name, lists)) => Put(acc, name, lists)
  }

  /** The loop over `dirs`, in order, starting from `acc`. */
  function AddDirs(entry: string -> Option<(string, LabelLists)>, acc: Dict, dirs: seq<string>): (r: Dict)
    requires Valid(acc)
    ensures Valid(r)
    decreases |dirs|
  {
    if dirs == [] then acc
    else Step(entry, AddDirs(entry, acc, dirs[..|dirs| - 1]), dirs[|dirs| - 1])
  }

  /** The walked directories after the root entry, which the loop always skips. */
  function SubDirs(walk: seq<string>): seq<string> {
    if walk == [] then [] else walk[1..]
  }

  /** `create_image_lists(image_dir, testing_percentage, validation_percentage)`;
      `dirExists` stands for `gfile.Exists(image_dir)` and `walk` for the
      directory paths `gfile.Walk(image_dir)` yields, root first. */
  function CreateImageLists(env: Env, dirExists: bool, walk: seq<string>,
                            testingPct: real, validationPct: real): (r: Option<Dict>)
    ensures r.None? <==> !dirExists
    ensures r.Some? ==> Valid(r.value)
  {
    if !dirExists then None
    else Some(AddDirs(DirEntries(env, testingPct, validationPct), EmptyDict, SubDirs(walk)))
  }

  /** Reference for the overwrite rule: the entry for `name` comes from the
      LAST directory in `dirs` that yields that label. */
  function LastEntry(entry: string -> Option<(string, LabelLists)>, dirs: seq<string>, name: string)
    : Option<LabelLists>
    decreases |dirs|
  {
    if dirs == [] then None
    else if Yields(entry, dirs[|dirs| - 1], name) then Some(entry(dirs[|dirs| - 1]).value.1)
    else LastEntry(entry, dirs[..|dirs| - 1], name)
  }

  /** The loop keeps, for every label, the entry of the last directory that
      yields it, and otherwise what it started with. */
  lemma {:induction false} AddDirsLastWins(entry: string -> Option<(string, LabelLists)>, acc: Dict,
                                           dirs: seq<string>, name: string)
    requires Valid(acc)
    ensures var r := AddDirs(entry, acc, dirs);
            match LastEntry(entry, dirs, name)
            case Some(lists) => name in r.entries && r.entries[name] == lists
            case None => (name in r.entries <==> name in acc.entries)
                         && (name in acc.entries ==> r.entries[name] == acc.entries[name])
    decreases |dirs|
  {
    if dirs != [] {
      AddDirsLastWins(entry, acc, dirs[..|dirs| - 1], name);
    }
  }

  /** `LastEntry` finds an entry exactly when some directory yields the label. */
  lemma {:induction false} LastEntryFound(entry: string -> Option<(string, LabelLists)>,
                                          dirs: seq<string>, name: string)
    ensures LastEntry(entry, dirs, name).Some? <==> exists j :: 0 <= j < |dirs| && Yields(entry, dirs[j], name)
    decreases |dirs|
  {
    if dirs != [] {
      var init := dirs[..|dirs| - 1];
      LastEntryFound(entry, init, name);
      assert forall j :: 0 <= j < |init| ==> dirs[j] == init[j];
      if exists j :: 0 <= j < |dirs| && Yields(entry, dirs[j], name) {
        var j :| 0 <= j < |dirs| && Yields(entry, dirs[j], name);
        if j < |init| {
          assert Yields(entry, init[j], name);
        }
      }
    }
  }

  /** What `LastEntry` finds is the entry of the last directory yielding the label. */
  lemma {:induction false} LastEntryFromLast(entry: string -> Option<(string, LabelLists)>,
                                             dirs: seq<string>, name: string)
    requires LastEntry(entry, dirs, name).Some?
    ensures exists j :: 0 <= j < |dirs| && entry(dirs[j]) == Some((name, LastEntry(entry, dirs, name).value))
                        && forall k :: j < k < |dirs| ==> !Yields(entry, dirs[k], name)
    decreases |dirs|
  {
    var init := dirs[..|dirs| - 1];
    var e := LastEntry(entry, dirs, name).value;
    if !Yields(entry, dirs[|dirs| - 1], name) {
      LastEntryFromLast(entry, init, name);
      var j :| 0 <= j < |init| && entry(init[j]) == Some((name, e))
               && forall k :: j < k < |init| ==> !Yields(entry, init[k], name);
      assert dirs[j] == init[j];
      forall k | j < k < |dirs| ensures !Yields(entry, dirs[k], name) {
        if k < |init| {
          assert dirs[k] == init[k];
        }
      }
    }
  }

  /** Directory `subDir` of the walk yields an entry under label `name`:
      its basename is not `image_dir`, it has files, and it normalises to `name`. */
  predicate Produces(env: Env, subDir: string, name: string) {
    var dirName := Basename(subDir);
    dirName != env.imageDir && ClassFiles(env, dirName) != [] && Normalize(dirName) == name
  }

  /** What an entry for `name` holds: it came from a class directory `dir`
      other than `image_dir`, `name` is that directory's normalised name, the
      directory has files, and the three lists are exactly the split of them. */
  predicate EntryFor(env: Env, testingPct: real, validationPct: real, name: string, e: LabelLists) {
    var files := ClassFiles(env, e.dir);
    && e.dir != env.imageDir
    && name == Normalize(e.dir)
    && files != []
    && e.training == Select(files, env.hash, testingPct, validationPct, Training)
    && e.testing == Select(files, env.hash, testingPct, validationPct, Testing)
    && e.validation == Select(files, env.hash, testingPct, validationPct, Validation)
    && |e.training| + |e.testing| + |e.validation| == |files|
  }

  /** A directory's entry is labelled `name` exactly when it produces `name`,
      and it is then a well-formed entry for `name`. */
  lemma DirEntryProduces(env: Env, testingPct: real, validationPct: real, subDir: string, name: string)
    ensures Yields(DirEntries(env, testingPct, validationPct), subDir, name) <==> Produces(env, subDir, name)
    ensures var e := DirEntry(env, testingPct, validationPct, subDir);
            e.Some? && e.value.0 == name ==> EntryFor(env, testingPct, validationPct, name, e.value.1)
  {
  }

  /** Over the walk's directories, yielding a label is producing it. */
  lemma YieldsIsProduces(env: Env, testingPct: real, validationPct: real, dirs: seq<string>, name: string)
    ensures forall j :: 0 <= j < |dirs| ==>
              (Yields(DirEntries(env, testingPct, validationPct), dirs[j], name) <==> Produces(env, dirs[j], name))
  {
    forall j | 0 <= j < |dirs| {
      DirEntryProduces(env, testingPct, validationPct, dirs[j], name);
    }
  }

  /** `create_image_lists` holds exactly the labels some walked directory
      other than the root produces. */
  lemma CreateImageListsLabels(env: Env, walk: seq<string>, testingPct: real, validationPct: real,
                               name: string)
    ensures var d := CreateImageLists(env, true, walk, testingPct, validationPct).value;
            name in d.entries <==> exists j :: 1 <= j < |walk| && Produces(env, walk[j], name)
  {
    var entry := DirEntries(env, testingPct, validationPct);
    var dirs := SubDirs(walk);
    var d := CreateImageLists(env, true, walk, testingPct, validationPct).value;
    assert forall j :: 0 <= j < |dirs| ==> dirs[j] == walk[j + 1];
    assert name in d.entries <==> exists j :: 0 <= j < |dirs| && Yields(entry, dirs[j], name) by {
      AddDirsLastWins(entry, EmptyDict, dirs, name);
      LastEntryFound(entry, dirs, name);
    }
    YieldsIsProduces(env, testingPct, validationPct, dirs, name);
    if exists j :: 1 <= j < |walk| && Produces(env, walk[j], name) {
      var j :| 1 <= j < |walk| && Produces(env, walk[j], name);
      assert Produces(env, dirs[j - 1], name);
    }
  }

  /** Each label of `create_image_lists` maps to the entry of the LAST walked
      directory producing it, and that entry is the complete split of that
      directory's files. */
  lemma CreateImageListsLastWins(env: Env, walk: seq<string>, testingPct: real, validationPct: real,
                                 name: string)
    requires name in CreateImageLists(env, true, walk, testingPct, validationPct).value.entries
    ensures var e := CreateImageLists(env, true, walk, testingPct, validationPct).value.entries[name];
            && EntryFor(env, testingPct, validationPct, name, e)
            && exists j :: 1 <= j < |walk| && Produces(env, walk[j], name) && Basename(walk[j]) == e.dir
                           && forall k :: j < k < |walk| ==> !Produces(env, walk[k], name)
  {
    var entry := DirEntries(env, testingPct, validationPct);
    var dirs := SubDirs(walk);
    var e := CreateImageLists(env, true, walk, testingPct, validationPct).value.entries[name];
    assert exists j :: 0 <= j < |dirs| && entry(dirs[j]) == Some((name, e))
                       && forall k :: j < k < |dirs| ==> !Yields(entry, dirs[k], name) by {
      AddDirsLastWins(entry, EmptyDict, dirs, name);
      LastEntryFromLast(entry, dirs, name);
    }
    var j :| 0 <= j < |dirs| && entry(dirs[j]) == Some((name, e))
             && forall k :: j < k < |dirs| ==> !Yields(entry, dirs[k], name);
    DirEntryProduces(env, testingPct, validationPct, dirs[j], name);
    YieldsAt(env, walk, testingPct, validationPct, j, name);
    forall k | j + 1 < k < |walk| ensures !Produces(env, walk[k], name) {
      YieldsAt(env, walk, testingPct, validationPct, k - 1, name);
    }
  }

  /** Sub-directory `k` is walk entry `k + 1`, and yields a label exactly
      when it produces it. */
  lemma YieldsAt(env: Env, walk: seq<string>, testingPct: real, validationPct: real, k: nat, name: string)
    requires k < |SubDirs(walk)|
    ensures k + 1 < |walk| && SubDirs(walk)[k] == walk[k + 1]
    ensures Yields(DirEntries(env, testingPct, validationPct), SubDirs(walk)[k], name)
            <==> Produces(env, walk[k + 1], name)
  {
    DirEntryProduces(env, testingPct, validationPct, walk[k + 1], name);
  }

  /** Some directory yielding `a` comes before every directory yielding `b`:
      `a` is first yielded strictly earlier than `b`. */
  ghost predicate YieldedFirst(entry: string -> Option<(string, LabelLists)>, dirs: seq<string>,
                               a: string, b: string) {
    exists p :: 0 <= p < |dirs| && Yields(entry, dirs[p], a)
                && forall q :: 0 <= q <= p ==> !Yields(entry, dirs[q], b)
  }

  /** From an empty dictionary, the loop holds exactly the labels some
      directory yields. */
  lemma AddDirsKeys(entry: string -> Option<(string, LabelLists)>, dirs: seq<string>, name: string)
    ensures name in AddDirs(entry, EmptyDict, dirs).entries
            <==> exists p :: 0 <= p < |dirs| && Yields(entry, dirs[p], name)
  {
    AddDirsLastWins(entry, EmptyDict, dirs, name);
    LastEntryFound(entry, dirs, name);
  }

  /** Python dicts keep first-insertion order, so the loop lists the labels
      in the order their first directory is met. */
  lemma {:induction false} AddDirsKeyOrder(entry: string -> Option<(string, LabelLists)>, dirs: seq<string>,
                                           i: nat, j: nat)
    requires i < j < |AddDirs(entry, EmptyDict, dirs).labels|
    ensures var d := AddDirs(entry, EmptyDict, dirs);
            YieldedFirst(entry, dirs, d.labels[i], d.labels[j])
    decreases |dirs|
  {
    var init := dirs[..|dirs| - 1];
    var last := dirs[|dirs| - 1];
    var prev := AddDirs(entry, EmptyDict, init);
    var d := AddDirs(entry, EmptyDict, dirs);
    assert dirs == init + [last];
    assert d == Step(entry, prev, last);
    if j < |prev.labels| {
      AddDirsKeyOrder(entry, init, i, j);
      assert d.labels[i] == prev.labels[i] && d.labels[j] == prev.labels[j];
      YieldedFirstExtends(entry, init, last, prev.labels[i], prev.labels[j]);
    } else {
      NewKeyLast(entry, init, last, prev, d, i);
    }
  }

  lemma YieldedFirstExtends(entry: string -> Option<(string, LabelLists)>, init: seq<string>, last: string,
                            a: string, b: string)
    requires YieldedFirst(entry, init, a, b)
    ensures YieldedFirst(entry, init + [last], a, b)
  {
    var p :| 0 <= p < |init| && Yields(entry, init[p], a) && forall q :: 0 <= q <= p ==> !Yields(entry, init[q], b);
    var dirs := init + [last];
    assert forall q :: 0 <= q <= p ==> dirs[q] == init[q];
    assert Yields(entry, dirs[p], a);
  }

  /** A key the last directory adds comes after every earlier key. */
  lemma NewKeyLast(entry: string -> Option<(string, LabelLists)>, init: seq<string>, last: string,
                   prev: Dict, d: Dict, i: nat)
    requires prev == AddDirs(entry, EmptyDict, init)
    requires d == Step(entry, prev, last)
    requires i < |prev.labels| < |d.labels|
    ensures YieldedFirst(entry, init + [last], d.labels[i], d.labels[|prev.labels|])
  {
    var a, n := prev.labels[i], d.labels[|prev.labels|];
    var dirs := init + [last];
    assert entry(last).Some? && n == entry(last).value.0 && n !in prev.entries;
    assert d.labels[i] == a;
    AddDirsKeys(entry, init, a);
    AddDirsKeys(entry, init, n);
    var p :| 0 <= p < |init| && Yields(entry, init[p], a);
    assert forall q :: 0 <= q <= p ==> dirs[q] == init[q] && !Yields(entry, init[q], n);
    assert Yields(entry, dirs[p], a);
  }

  /** Some walked directory other than the root produces `a` before any
      produces `b`. */
  ghost predicate ProducedFirst(env: Env, walk: seq<string>, a: string, b: string) {
    var dirs := SubDirs(walk);
    exists p :: 0 <= p < |dirs| && Produces(env, dirs[p], a)
                && forall q :: 0 <= q <= p ==> !Produces(env, dirs[q], b)
  }

  /** `list(image_lists.keys())`, which fixes every label index: the labels
      are listed in the order the walk first produces them. */
  lemma CreateImageListsKeyOrder(env: Env, walk: seq<string>, testingPct: real, validationPct: real)
    ensures var d := CreateImageLists(env, true, walk, testingPct, validationPct).value;
            forall i, j :: 0 <= i < j < |d.labels| ==> ProducedFirst(env, walk, d.labels[i], d.labels[j])
  {
    var entry := DirEntries(env, testingPct, validationPct);
    var d := CreateImageLists(env, true, walk, testingPct, validationPct).value;
    assert d == AddDirs(entry, EmptyDict, SubDirs(walk));
    forall i, j | 0 <= i < j < |d.labels| ensures ProducedFirst(env, walk, d.labels[i], d.labels[j]) {
      AddDirsKeyOrder(entry, SubDirs(walk), i, j);
      YieldedIsProduced(env, walk, testingPct, validationPct, d.labels[i], d.labels[j]);
    }
  }

  lemma YieldedIsProduced(env: Env, walk: seq<string>, testingPct: real, validationPct: real, a: string, b: string)
    requires YieldedFirst(DirEntries(env, testingPct, validationPct), SubDirs(walk), a, b)
    ensures ProducedFirst(env, walk, a, b)
  {
    var entry := DirEntries(env, testingPct, validationPct);
    var dirs := SubDirs(walk);
    var p :| 0 <= p < |dirs| && Yields(entry, dirs[p], a) && forall q :: 0 <= q <= p ==> !Yields(entry, dirs[q], b);
    DirEntryProduces(env, testingPct, validationPct, dirs[p], a);
    forall q | 0 <= q <= p ensures !Produces(env, dirs[q], b) {
      DirEntryProduces(env, testingPct, validationPct, dirs[q], b);
    }
  }

  /** The root entry of the walk never matters. */
  lemma RootIgnored(env: Env, dirExists: bool, root: string, other: string, rest: seq<string>,
                    testingPct: real, validationPct: real)
    ensures CreateImageLists(env, dirExists, [root] + rest, testingPct, validationPct)
         == CreateImageLists(env, dirExists, [other] + rest, testingPct, validationPct)
  {
    assert ([root] + rest)[1..] == rest == ([other] + rest)[1..];
  }
}
