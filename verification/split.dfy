/** The deterministic train/validation/test split of `create_image_lists`. */
module Split {
  import opened Paths

  /** The marker after which a file name is ignored for hashing. */
  const Marker: string := "_nohash_"

  /** `MAX_NUM_IMAGES_PER_CLASS`, i.e. 2^27 - 1. */
  const MaxImagesPerClass: nat := 134217727

  /** The three lists a file can land in. */
  datatype Subset = Training | Testing | Validation

  /** The lists of base names one class directory is split into. */
  datatype Partition = Partition(training: seq<string>, testing: seq<string>, validation: seq<string>)

  /** The marker starts at position `i` of `s`. */
  predicate OccursAt(s: string, i: nat) {
    i + |Marker| <= |s| && s[i..i + |Marker|] == Marker
  }

  /** `re.sub(r'_nohash_.*$', '', s)`: cuts `s` at the first marker. */
  function StripNoHash(s: string): (r: string)
    ensures |r| <= |s| && r == s[..|r|]
    ensures forall i :: 0 <= i < |r| ==> !OccursAt(s, i)
    ensures r == s || OccursAt(s, |r|)
    decreases |s|
  {
    if s == [] || OccursAt(s, 0) then []
    else
      OccursShift(s);
      [s[0]] + StripNoHash(s[1..])
  }

  /** The marker occurs at `i` of `s` (for `i >= 1`) exactly when it occurs
      at `i - 1` of `s[1..]`. */
  lemma OccursShift(s: string)
    requires s != []
    ensures forall i :: 1 <= i ==> (OccursAt(s, i) <==> OccursAt(s[1..], i - 1))
  {
    forall i | 1 <= i
      ensures OccursAt(s, i) <==> OccursAt(s[1..], i - 1)
    {
      if i + |Marker| <= |s| {
        assert s[1..][i - 1..i - 1 + |Marker|] == s[i..i + |Marker|];
      }
    }
  }

  /** The hash of the stripped name mapped onto a percentage. The source
      computes `(h % (MAX + 1)) * (100.0 / MAX)` in floating point; over the
      reals that is `(h % (MAX + 1)) * 100 / MAX`. */
  function Percentage(h: nat): (p: real)
    ensures 0.0 <= p <= 100.0
  {
    ((h % (MaxImagesPerClass + 1)) as real) * 100.0 / (MaxImagesPerClass as real)
  }

  /** The threshold rule: below `validationPct` is validation, below
      `testingPct + validationPct` is testing, anything else is training. */
  function Classify(p: real, testingPct: real, validationPct: real): (s: Subset)
    ensures s == Validation <==> p < validationPct
    ensures s == Testing <==> validationPct <= p < testingPct + validationPct
    ensures s == Training <==> validationPct <= p && testingPct + validationPct <= p
  {
    if p < validationPct then Validation
    else if p < testingPct + validationPct then Testing
    else Training
  }

  /** The list one file (given by its full globbed path) is assigned to. */
  function Assign(hash: string -> nat, testingPct: real, validationPct: real, file: string): Subset
  {
    Classify(Percentage(hash(StripNoHash(file))), testingPct, validationPct)
  }

  /** The base names of the files assigned to `which`, in their original order:
      the reference the split is measured against. */
  function Select(files: seq<string>, hash: string -> nat, testingPct: real, validationPct: real,
                  which: Subset): (r: seq<string>)
    ensures |r| <= |files|
  {
    if files == [] then []
    else
      (if Assign(hash, testingPct, validationPct, files[0]) == which then [Basename(files[0])] else [])
      + Select(files[1..], hash, testingPct, validationPct, which)
  }

  /** Every selected name is a base name, so none holds a separator. */
  lemma {:induction false} SelectNoSep(files: seq<string>, hash: string -> nat, testingPct: real,
                                       validationPct: real, which: Subset)
    ensures forall x :: x in Select(files, hash, testingPct, validationPct, which) ==> Sep !in x
    decreases |files|
  {
    if files != [] {
      SelectNoSep(files[1..], hash, testingPct, validationPct, which);
      var b := Basename(files[0]);
      var head: seq<string> := if Assign(hash, testingPct, validationPct, files[0]) == which then [b] else [];
      assert forall x :: x in head ==> Sep !in x;
      assert Select(files, hash, testingPct, validationPct, which)
          == head + Select(files[1..], hash, testingPct, validationPct, which);
    }
  }

  /** Puts `name` in front of the list `which` names. */
  function Prepend(part: Partition, which: Subset, name: string): Partition
  {
    match which
    case Training => part.(training := [name] + part.training)
    case Testing => part.(testing := [name] + part.testing)
    case Validation => part.(validation := [name] + part.validation)
  }

  /** The loop over `file_list`: each file's base name goes to the list its
      percentage selects. The loop appends in file order; recursing from the
      front and prepending builds the same lists. */
  function SplitFiles(files: seq<string>, hash: string -> nat, testingPct: real, validationPct: real)
    : (r: Partition)
    ensures |r.training| + |r.testing| + |r.validation| == |files|
    ensures r.training == Select(files, hash, testingPct, validationPct, Training)
    ensures r.testing == Select(files, hash, testingPct, validationPct, Testing)
    ensures r.validation == Select(files, hash, testingPct, validationPct, Validation)
    decreases |files|
  {
    if files == [] then Partition([], [], [])
    else
      Prepend(SplitFiles(files[1..], hash, testingPct, validationPct),
              Assign(hash, testingPct, validationPct, files[0]), Basename(files[0]))
  }

  /** The base names of `files`, in order. */
  function BaseNames(files: seq<string>): (r: seq<string>)
    ensures |r| == |files|
    ensures forall i :: 0 <= i < |files| ==> r[i] == Basename(files[i])
  {
    if files == [] then [] else [Basename(files[0])] + BaseNames(files[1..])
  }

  /** Every file lands in exactly one list: the three lists together hold the
      base names of all files, each as often as it occurs. */
  lemma {:induction false} SelectPartitions(files: seq<string>, hash: string -> nat,
                                            testingPct: real, validationPct: real)
    ensures multiset(Select(files, hash, testingPct, validationPct, Training))
          + multiset(Select(files, hash, testingPct, validationPct, Testing))
          + multiset(Select(files, hash, testingPct, validationPct, Validation))
         == multiset(BaseNames(files))
    decreases |files|
  {
    if files != [] {
      SelectPartitions(files[1..], hash, testingPct, validationPct);
    }
  }

  /** Cutting at the first marker ignores everything after it. */
  lemma StripNoHashPrefix(p: string, x: string)
    requires forall i :: 0 <= i < |p| ==> !OccursAt(p + Marker, i)
    ensures StripNoHash(p + Marker + x) == p
  {
    var s := p + Marker + x;
    var r := StripNoHash(s);
    assert s[|p|..|p| + |Marker|] == Marker;
    assert OccursAt(s, |p|);
    forall i | 0 <= i < |p|
      ensures OccursAt(s, i) == OccursAt(p + Marker, i)
    {
      assert s[i..i + |Marker|] == (p + Marker)[i..i + |Marker|];
    }
    assert |r| == |p|;
    assert s[..|p|] == p;
  }

  /** Two files whose names agree up to the first marker always land in the
      same list. */
  lemma SameStemSameSubset(p: string, x: string, y: string, hash: string -> nat,
                           testingPct: real, validationPct: real)
    requires forall i :: 0 <= i < |p| ==> !OccursAt(p + Marker, i)
    ensures Assign(hash, testingPct, validationPct, p + Marker + x)
         == Assign(hash, testingPct, validationPct, p + Marker + y)
  {
    StripNoHashPrefix(p, x);
    StripNoHashPrefix(p, y);
  }

  /** The position of a list in the order validation < testing < training. */
  function Rank(s: Subset): nat {
    match s
    case Validation => 0
    case Testing => 1
    case Training => 2
  }

  /** A larger percentage never moves a file towards validation. */
  lemma ClassifyMonotone(p: real, q: real, testingPct: real, validationPct: real)
    requires p <= q
    ensures Rank(Classify(p, testingPct, validationPct)) <= Rank(Classify(q, testingPct, validationPct))
  {
  }

  /** The upper bound 100 is reached: the percentage is 100 exactly when the
      hash is congruent to `MAX_NUM_IMAGES_PER_CLASS`. */
  lemma PercentageTop(h: nat)
    ensures Percentage(h) == 100.0 <==> h % (MaxImagesPerClass + 1) == MaxImagesPerClass
  {
  }

  /** With percentages summing to more than 100 no file is ever trained on. */
  lemma NoTrainingAbove100(hash: string -> nat, testingPct: real, validationPct: real, file: string)
    requires testingPct + validationPct > 100.0
    ensures Assign(hash, testingPct, validationPct, file) != Training
  {
  }
}
