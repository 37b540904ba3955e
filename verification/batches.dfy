/** `get_random_cached_bottlenecks`: assembling a batch of cached bottlenecks,
    one-hot ground truths and file names. */
module Batches {
  import opened Wrappers
  import opened Split
  import opened ImageLists
  import opened Lookup

  /** A cached feature vector. */
  type Bottleneck = seq<real>

  /** The two `random.randrange` results one sample consumes: the label index
      (`randrange(class_count)`) and the image index
      (`randrange(MAX_NUM_IMAGES_PER_CLASS + 1)`). */
  datatype Draw = Draw(labelIndex: nat, imageIndex: nat)

  /** Where the samples come from: the category, the bottleneck and image
      directories, and the bottleneck read from (or created at) a cache path. */
  datatype Source = Source(category: string, bottleneckDir: string, imageDir: string,
                           fetch: string -> Bottleneck)

  /** The three lists the function returns, index-aligned. */
  datatype Batch = Batch(bottlenecks: seq<Bottleneck>, groundTruths: seq<seq<real>>, filenames: seq<string>)

  /** Why a batch cannot be built: `randrange(0)` on an empty dictionary, or a
      failing path lookup. */
  datatype BatchError = EmptyRange | LookupFailed(err: LookupError)

  const EmptyBatch: Batch := Batch([], [], [])

  predicate Aligned(b: Batch, n: nat) {
    |b.bottlenecks| == n && |b.groundTruths| == n && |b.filenames| == n
  }

  /** `ground_truth = np.zeros(class_count); ground_truth[label_index] = 1.0`. */
  function OneHot(n: nat, k: nat): (r: seq<real>)
    requires k < n
    ensures |r| == n
    ensures r[k] == 1.0 && forall i :: 0 <= i < n && i != k ==> r[i] == 0.0
  {
    seq(n, i requires 0 <= i < n => if i == k then 1.0 else 0.0)
  }

  /** `np.argmax` of a vector: the first position of its maximum. */
  function ArgMax(v: seq<real>): (r: nat)
    requires |v| > 0
    ensures r < |v|
    ensures forall i :: 0 <= i < |v| ==> v[i] <= v[r]
    ensures forall i :: 0 <= i < r ==> v[i] < v[r]
  {
    if |v| == 1 then 0
    else
      var m := ArgMax(v[..|v| - 1]);
      if v[|v| - 1] > v[m] then |v| - 1 else m
  }

  /** The confusion-matrix step recovers the label index from a ground-truth
      vector: `argmax` inverts the one-hot encoding. */
  lemma ArgMaxOneHot(n: nat, k: nat)
    requires k < n
    ensures ArgMax(OneHot(n, k)) == k
  {
  }

  /** One sample: a bottleneck, its ground truth and its file name. */
  datatype Item = Item(bottleneck: Bottleneck, groundTruth: seq<real>, filename: string)

  /** Position `j` of `b` holds `item`. */
  predicate At(b: Batch, j: int, item: Item) {
    && 0 <= j < |b.filenames| && j < |b.groundTruths| && j < |b.bottlenecks|
    && b.bottlenecks[j] == item.bottleneck
    && b.groundTruths[j] == item.groundTruth
    && b.filenames[j] == item.filename
  }

  /** One iteration of either loop for image `imageIndex` of label number
      `labelIndex`: `get_image_path`, `get_or_create_bottleneck` (read from
      the cache path) and the one-hot vector of the label index. */
  function Sample(d: Dict, labelIndex: nat, imageIndex: int, src: Source): (r: Result<Item, BatchError>)
    requires Valid(d) && labelIndex < |d.labels|
    ensures r.Success? <==> ImagePath(d, d.labels[labelIndex], imageIndex, src.imageDir, src.category).Success?
    ensures r.Failure? ==>
              r.error == LookupFailed(Locate(d, d.labels[labelIndex], imageIndex, src.category).error)
    ensures r.Success? ==>
              && r.value.filename == ImagePath(d, d.labels[labelIndex], imageIndex, src.imageDir, src.category).value
              && r.value.groundTruth == OneHot(|d.labels|, labelIndex)
              && r.value.bottleneck
                 == src.fetch(BottleneckPath(d, d.labels[labelIndex], imageIndex, src.bottleneckDir, src.category).value)
  {
    var name := d.labels[labelIndex];
    match ImagePath(d, name, imageIndex, src.imageDir, src.category)
    case Failure(err) => Failure(LookupFailed(err))
    case Success(file) =>
      match BottleneckPath(d, name, imageIndex, src.bottleneckDir, src.category)
      case Failure(err) => Failure(LookupFailed(err))
      case Success(cache) => Success(Item(src.fetch(cache), OneHot(|d.labels|, labelIndex), file))
  }

  /** `b` with one more sample at the end. */
  function Push(b: Batch, item: Item): (r: Batch)
    ensures Aligned(b, |b.filenames|) ==> Aligned(r, |b.filenames| + 1) && At(r, |b.filenames|, item)
    ensures forall j, x :: At(b, j, x) ==> At(r, j, x)
  {
    Batch(b.bottlenecks + [item.bottleneck], b.groundTruths + [item.groundTruth], b.filenames + [item.filename])
  }

  /** The draws lie where `randrange` puts them (the label draw only matters
      when there is a label to draw). */
  predicate DrawsInRange(draws: seq<Draw>, classCount: nat) {
    forall i :: 0 <= i < |draws| ==>
      (classCount == 0 || draws[i].labelIndex < classCount) && draws[i].imageIndex <= MaxImagesPerClass
  }

  /** The sampling loop, for any per-draw step `sample`: stops at the first
      failing draw, and fails at once when there is no label to draw. */
  function Collect(classCount: nat, draws: seq<Draw>, sample: (nat, int) -> Result<Item, BatchError>)
    : (r: Result<Batch, BatchError>)
    ensures |draws| > 0 && classCount == 0 ==> r == Failure(EmptyRange)
    ensures r.Success? <==>
              |draws| == 0
              || (classCount > 0
                  && forall i :: 0 <= i < |draws| ==> sample(draws[i].labelIndex, draws[i].imageIndex).Success?)
    ensures r.Success? ==> Aligned(r.value, |draws|)
    ensures r.Success? ==> forall i :: 0 <= i < |draws| ==>
              At(r.value, i, sample(draws[i].labelIndex, draws[i].imageIndex).value)
    ensures r.Failure? && classCount > 0 ==> FirstFailure(draws, sample, r.error)
    decreases |draws|
  {
    if draws == [] then Success(EmptyBatch)
    else
      var init := draws[..|draws| - 1];
      var last := draws[|draws| - 1];
      assert forall i :: 0 <= i < |init| ==> init[i] == draws[i];
      match Collect(classCount, init, sample)
      case Failure(err) =>
        if classCount > 0 then FirstFailureExtends(draws, sample, err); Failure(err)
        else Failure(err)
      case Success(b) =>
        if classCount == 0 then Failure(EmptyRange)
        else
          match sample(last.labelIndex, last.imageIndex)
          case Failure(err) =>
            assert FailsFirstAt(draws, sample, |draws| - 1, err);
            Failure(err)
          case Success(item) => Success(Push(b, item))
  }

  /** Draw `i` is the first draw whose sample fails, and it fails with `err`. */
  predicate FailsFirstAt(draws: seq<Draw>, sample: (nat, int) -> Result<Item, BatchError>, i: int, err: BatchError) {
    && 0 <= i < |draws|
    && (forall j :: 0 <= j < i ==> sample(draws[j].labelIndex, draws[j].imageIndex).Success?)
    && sample(draws[i].labelIndex, draws[i].imageIndex) == Failure(err)
  }

  /** The loop stops at the first failing draw and raises its error. */
  predicate FirstFailure(draws: seq<Draw>, sample: (nat, int) -> Result<Item, BatchError>, err: BatchError) {
    exists i :: 0 <= i < |draws| && FailsFirstAt(draws, sample, i, err)
  }

  lemma FirstFailureExtends(draws: seq<Draw>, sample: (nat, int) -> Result<Item, BatchError>, err: BatchError)
    requires |draws| > 0 && FirstFailure(draws[..|draws| - 1], sample, err)
    ensures FirstFailure(draws, sample, err)
  {
    var init := draws[..|draws| - 1];
    var i :| 0 <= i < |init| && FailsFirstAt(init, sample, i, err);
    assert forall j :: 0 <= j <= i ==> init[j] == draws[j];
    assert FailsFirstAt(draws, sample, i, err);
  }

  /** `Sample` over the labels of `d`, as a total step function. */
  function Sampler(d: Dict, src: Source): (nat, int) -> Result<Item, BatchError>
    requires Valid(d)
  {
    (labelIndex: nat, imageIndex: int) =>
      if labelIndex < |d.labels| then Sample(d, labelIndex, imageIndex, src) else Failure(EmptyRange)
  }

  /** The `how_many >= 0` branch: one sample per draw, in draw order. */
  function SampleBatch(d: Dict, draws: seq<Draw>, src: Source): (r: Result<Batch, BatchError>)
    requires Valid(d) && DrawsInRange(draws, |d.labels|)
  {
    Collect(|d.labels|, draws, Sampler(d, src))
  }

  /** The samples of the `how_many >= 0` branch: the batch exists exactly when
      there is a label to draw (or nothing to draw) and every drawn image can be
      located; sample `i` is then the image draw `i` names. */
  lemma SampleBatchSpec(d: Dict, draws: seq<Draw>, src: Source)
    requires Valid(d) && DrawsInRange(draws, |d.labels|)
    ensures var r := SampleBatch(d, draws, src);
            && (|draws| > 0 && |d.labels| == 0 ==> r == Failure(EmptyRange))
            && (r.Success? <==>
                  |draws| == 0
                  || (|d.labels| > 0
                      && forall i :: 0 <= i < |draws| ==>
                           Sample(d, draws[i].labelIndex, draws[i].imageIndex, src).Success?))
            && (r.Success? ==> Aligned(r.value, |draws|))
            && (r.Success? ==> forall i :: 0 <= i < |draws| ==>
                  draws[i].labelIndex < |d.labels|
                  && At(r.value, i, Sample(d, draws[i].labelIndex, draws[i].imageIndex, src).value))
            && (r.Failure? && |d.labels| > 0 ==>
                  exists i :: 0 <= i < |draws|
                    && (forall j :: 0 <= j < i ==> Sample(d, draws[j].labelIndex, draws[j].imageIndex, src).Success?)
                    && Sample(d, draws[i].labelIndex, draws[i].imageIndex, src) == Failure(r.error))
  {
    var sample := Sampler(d, src);
    if |d.labels| > 0 {
      assert forall i :: 0 <= i < |draws| ==>
        sample(draws[i].labelIndex, draws[i].imageIndex) == Sample(d, draws[i].labelIndex, draws[i].imageIndex, src);
      var r := SampleBatch(d, draws, src);
      if r.Failure? {
        var i :| 0 <= i < |draws| && FailsFirstAt(draws, sample, i, r.error);
        assert forall j :: 0 <= j < i ==> Sample(d, draws[j].labelIndex, draws[j].imageIndex, src).Success?;
        assert Sample(d, draws[i].labelIndex, draws[i].imageIndex, src) == Failure(r.error);
      }
    }
  }

  /** The number of images labels `0..k` hold in total. */
  function Offset(counts: seq<nat>, k: nat): nat
    requires k <= |counts|
  {
    if k == 0 then 0 else Offset(counts, k - 1) + counts[k - 1]
  }

  /** The inner loop of the `how_many < 0` branch: the samples of images
      `0..k` of label `labelIndex`, appended to `b`. */
  function AppendImages(b: Batch, labelIndex: nat, k: nat, sample: (nat, int) -> Result<Item, BatchError>)
    : (r: Result<Batch, BatchError>)
    requires Aligned(b, |b.filenames|)
    ensures r.Success? <==> forall ii :: 0 <= ii < k ==> sample(labelIndex, ii).Success?
    ensures r.Success? ==> Aligned(r.value, |b.filenames| + k)
    ensures r.Success? ==> forall j, x :: At(b, j, x) ==> At(r.value, j, x)
    ensures r.Success? ==> forall ii :: 0 <= ii < k ==>
              At(r.value, |b.filenames| + ii, sample(labelIndex, ii).value)
  {
    if k == 0 then Success(b)
    else
      match AppendImages(b, labelIndex, k - 1, sample)
      case Failure(err) => Failure(err)
      case Success(b') =>
        match sample(labelIndex, k - 1)
        case Failure(err) => Failure(err)
        case Success(item) => Success(Push(b', item))
  }

  /** Image `imageIndex` of label `labelIndex` sits where label-major
      enumeration puts it: after every image of the earlier labels. */
  predicate EnumeratedAt(b: Batch, counts: seq<nat>, labelIndex: nat, imageIndex: nat,
                         sample: (nat, int) -> Result<Item, BatchError>)
    requires labelIndex < |counts|
  {
    && sample(labelIndex, imageIndex).Success?
    && At(b, Offset(counts, labelIndex) + imageIndex, sample(labelIndex, imageIndex).value)
  }

  /** The outer loop of the `how_many < 0` branch over labels `0..upto`,
      where label `li` has `counts[li]` images. */
  function Enumerate(counts: seq<nat>, upto: nat, sample: (nat, int) -> Result<Item, BatchError>)
    : (r: Result<Batch, BatchError>)
    requires upto <= |counts|
    ensures r.Success? <==>
              forall li, ii :: 0 <= li < upto && 0 <= ii < counts[li] ==> sample(li, ii).Success?
    ensures r.Success? ==> Aligned(r.value, Offset(counts, upto))
    ensures r.Success? ==> forall li, ii :: 0 <= li < upto && 0 <= ii < counts[li] ==>
              EnumeratedAt(r.value, counts, li, ii, sample)
  {
    if upto == 0 then Success(EmptyBatch)
    else
      match Enumerate(counts, upto - 1, sample)
      case Failure(err) => Failure(err)
      case Success(b) =>
        var r := AppendImages(b, upto - 1, counts[upto - 1], sample);
        if r.Success? then
          EnumerateStep(counts, upto, sample, b, r);
          r
        else r
  }

  lemma EnumerateStep(counts: seq<nat>, upto: nat, sample: (nat, int) -> Result<Item, BatchError>,
                      b: Batch, r: Result<Batch, BatchError>)
    requires 0 < upto <= |counts|
    requires Aligned(b, Offset(counts, upto - 1))
    requires forall li, ii :: 0 <= li < upto - 1 && 0 <= ii < counts[li] ==> EnumeratedAt(b, counts, li, ii, sample)
    requires r == AppendImages(b, upto - 1, counts[upto - 1], sample) && r.Success?
    ensures forall li, ii :: 0 <= li < upto && 0 <= ii < counts[li] ==> EnumeratedAt(r.value, counts, li, ii, sample)
  {
    forall li, ii | 0 <= li < upto && 0 <= ii < counts[li]
      ensures EnumeratedAt(r.value, counts, li, ii, sample)
    {
      if li < upto - 1 {
        assert EnumeratedAt(b, counts, li, ii, sample);
      } else {
        assert At(r.value, |b.filenames| + ii, sample(li, ii).value);
      }
    }
  }

  /** `len(image_lists[label][category])` for every label, in key order. */
  function Counts(d: Dict, category: string): (r: seq<nat>)
    requires Valid(d)
    ensures |r| == |d.labels|
  {
    seq(|d.labels|, li requires 0 <= li < |d.labels| =>
      if IsCategoryKey(category) then |CategoryList(d.entries[d.labels[li]], category).value| else 0)
  }

  /** The number of samples the `how_many < 0` branch returns: the sum over
      labels of the length of their category list. */
  function Total(d: Dict, category: string): nat
    requires Valid(d)
  {
    Offset(Counts(d, category), |d.labels|)
  }

  /** The `how_many < 0` branch: every image of the category, label by label. */
  function FullBatch(d: Dict, src: Source): (r: Result<Batch, BatchError>)
    requires Valid(d)
  {
    if !IsCategoryKey(src.category) then
      if d.labels == [] then Success(EmptyBatch) else Failure(LookupFailed(MissingCategory(src.category)))
    else Enumerate(Counts(d, src.category), |d.labels|, Sampler(d, src))
  }

  /** Image `imageIndex` of label number `labelIndex` is listed at its
      label-major position of `b`, under its own (unreduced) index. */
  predicate ListedAt(b: Batch, d: Dict, src: Source, labelIndex: nat, imageIndex: nat)
    requires Valid(d) && labelIndex < |d.labels| && IsCategoryKey(src.category)
  {
    var name := d.labels[labelIndex];
    var list := CategoryList(d.entries[name], src.category).value;
    var s := Sample(d, labelIndex, imageIndex, src);
    && imageIndex < |list|
    && s.Success?
    && At(b, Offset(Counts(d, src.category), labelIndex) + imageIndex, s.value)
    && s.value.filename == Paths.Join3(src.imageDir, d.entries[name].dir, list[imageIndex])
  }

  /** Inside the category list every index is located without reduction. */
  lemma SampleInList(d: Dict, labelIndex: nat, imageIndex: nat, src: Source)
    requires Valid(d) && labelIndex < |d.labels| && IsCategoryKey(src.category)
    requires imageIndex < |CategoryList(d.entries[d.labels[labelIndex]], src.category).value|
    ensures Sample(d, labelIndex, imageIndex, src).Success?
    ensures Sample(d, labelIndex, imageIndex, src).value.filename
         == Paths.Join3(src.imageDir, d.entries[d.labels[labelIndex]].dir,
                        CategoryList(d.entries[d.labels[labelIndex]], src.category).value[imageIndex])
  {
    var name := d.labels[labelIndex];
    var list := CategoryList(d.entries[name], src.category).value;
    assert imageIndex % |list| == imageIndex;
    assert Locate(d, name, imageIndex, src.category) == Success((d.entries[name].dir, list[imageIndex]));
  }

  /** The `how_many < 0` branch enumerates the whole category label-major and
      then by image index; it fails only when the category is not a key of
      the label records and there is a label to look it up in. */
  lemma FullBatchSpec(d: Dict, src: Source)
    requires Valid(d)
    ensures var r := FullBatch(d, src);
            && (r.Success? <==> d.labels == [] || IsCategoryKey(src.category))
            && (r.Failure? ==> r.error == LookupFailed(MissingCategory(src.category)))
            && (r.Success? ==> Aligned(r.value, Total(d, src.category)))
            && (r.Success? && IsCategoryKey(src.category) ==>
                  forall li, ii :: 0 <= li < |d.labels| && 0 <= ii < Counts(d, src.category)[li] ==>
                    ListedAt(r.value, d, src, li, ii))
  {
    if IsCategoryKey(src.category) {
      var counts := Counts(d, src.category);
      var sample := Sampler(d, src);
      forall li, ii | 0 <= li < |d.labels| && 0 <= ii < counts[li]
        ensures sample(li, ii) == Sample(d, li, ii, src) && Sample(d, li, ii, src).Success?
      {
        SampleInList(d, li, ii, src);
      }
      var r := Enumerate(counts, |d.labels|, sample);
      assert r.Success?;
      forall li, ii | 0 <= li < |d.labels| && 0 <= ii < counts[li]
        ensures ListedAt(r.value, d, src, li, ii)
      {
        SampleInList(d, li, ii, src);
        assert EnumeratedAt(r.value, counts, li, ii, sample);
      }
    }
  }

  /** `get_random_cached_bottlenecks(sess, image_lists, how_many, category,
      bottleneck_dir, image_dir, ...)`, with the random draws supplied. The
      three lists have length `how_many` when sampling and the size of the
      whole category when enumerating. */
  function GetRandomCachedBottlenecks(d: Dict, howMany: int, draws: seq<Draw>, src: Source)
    : (r: Result<Batch, BatchError>)
    requires Valid(d)
    requires howMany >= 0 ==> |draws| == howMany && DrawsInRange(draws, |d.labels|)
    ensures howMany >= 0 && r.Success? ==> Aligned(r.value, howMany)
    ensures howMany < 0 && r.Success? ==> Aligned(r.value, Total(d, src.category))
    ensures howMany > 0 && d.labels == [] ==> r == Failure(EmptyRange)
    ensures howMany < 0 ==> (r.Success? <==> d.labels == [] || IsCategoryKey(src.category))
  {
    if howMany >= 0 then
      SampleBatchSpec(d, draws, src);
      SampleBatch(d, draws, src)
    else
      FullBatchSpec(d, src);
      FullBatch(d, src)
  }
}
