/** `get_image_path` and `get_bottleneck_path`: from (label, index, category)
    to a file path. */
module Lookup {
  import opened Wrappers
  import opened Paths
  import opened ImageLists
  import opened Split

  /** The failures the lookup raises: a missing label (`KeyError` after the
      fatal log), a missing category key, and an empty list (`index % 0`). */
  datatype LookupError =
    | MissingLabel(name: string)
    | MissingCategory(category: string)
    | NoImages(name: string, category: string)

  /** The keys of a label record besides the three lists. */
  predicate IsCategoryKey(category: string) {
    category in {"training", "testing", "validation", "dir"}
  }

  /** The value of `label_lists[category]` as a sequence. The record's `dir`
      key is a category too: indexing it yields one-character strings. */
  function CategoryList(e: LabelLists, category: string): (r: Option<seq<string>>)
    ensures r.Some? <==> IsCategoryKey(category)
    ensures category == "training" ==> r == Some(e.training)
    ensures category == "testing" ==> r == Some(e.testing)
    ensures category == "validation" ==> r == Some(e.validation)
    ensures category == "dir" ==> |r.value| == |e.dir| && forall i :: 0 <= i < |e.dir| ==> r.value[i] == [e.dir[i]]
  {
    if category == "training" then Some(e.training)
    else if category == "testing" then Some(e.testing)
    else if category == "validation" then Some(e.validation)
    else if category == "dir" then Some(seq(|e.dir|, i requires 0 <= i < |e.dir| => [e.dir[i]]))
    else None
  }

  /** The directory name and base name `get_image_path` picks:
      `category_list[index % len(category_list)]`. Python's `%` with a positive
      divisor never yields a negative result, as Dafny's does not. */
  function Locate(d: Dict, name: string, index: int, category: string)
    : (r: Result<(string, string), LookupError>)
    requires Valid(d)
    ensures r.Failure? <==>
              name !in d.entries || !IsCategoryKey(category) || CategoryList(d.entries[name], category).value == []
    ensures name !in d.entries ==> r == Failure(MissingLabel(name))
    ensures name in d.entries && !IsCategoryKey(category) ==> r == Failure(MissingCategory(category))
    ensures name in d.entries && IsCategoryKey(category) && CategoryList(d.entries[name], category).value == []
            ==> r == Failure(NoImages(name, category))
    ensures r.Success? ==> var list := CategoryList(d.entries[name], category).value;
                           && r.value.0 == d.entries[name].dir
                           && r.value.1 in list
                           && r.value.1 == list[index % |list|]
  {
    if name !in d.entries then Failure(MissingLabel(name))
    else
      var e := d.entries[name];
      match CategoryList(e, category)
      case None => Failure(MissingCategory(category))
      case Some(list) =>
        if list == [] then Failure(NoImages(name, category))
        else Success((e.dir, list[index % |list|]))
  }

  /** `get_image_path(image_lists, label_name, index, image_dir, category)`. */
  function ImagePath(d: Dict, name: string, index: int, root: string, category: string)
    : (r: Result<string, LookupError>)
    requires Valid(d)
    ensures r.Failure? <==> Locate(d, name, index, category).Failure?
    ensures r.Failure? ==> r.error == Locate(d, name, index, category).error
    ensures r.Success? ==> var base := Locate(d, name, index, category).value.1;
                           |base| <= |r.value| && r.value[|r.value| - |base|..] == base
    ensures r.Success? ==> var loc := Locate(d, name, index, category).value;
                           r.value == Join(Join(root, loc.0), loc.1)
  {
    match Locate(d, name, index, category)
    case Failure(err) => Failure(err)
    case Success((dir, base)) => Success(Join3(root, dir, base))
  }

  /** `get_bottleneck_path`: the cache file of an image. */
  function BottleneckPath(d: Dict, name: string, index: int, bottleneckDir: string, category: string)
    : (r: Result<string, LookupError>)
    requires Valid(d)
    ensures r.Failure? <==> ImagePath(d, name, index, bottleneckDir, category).Failure?
    ensures r.Failure? ==> r.error == ImagePath(d, name, index, bottleneckDir, category).error
    ensures r.Success? ==> r.value == ImagePath(d, name, index, bottleneckDir, category).value + ".txt"
  {
    match ImagePath(d, name, index, bottleneckDir, category)
    case Failure(err) => Failure(err)
    case Success(path) => Success(path + ".txt")
  }

  /** Indices that differ by a multiple of the list length locate the same
      entry. */
  lemma LocatePeriodic(d: Dict, name: string, index: int, k: int, category: string)
    requires Valid(d)
    requires name in d.entries && IsCategoryKey(category)
    ensures var n := |CategoryList(d.entries[name], category).value|;
            Locate(d, name, index + k * n, category) == Locate(d, name, index, category)
  {
    var list := CategoryList(d.entries[name], category).value;
    var n := |list|;
    if n > 0 {
      ModMultiple(index, k, n);
    }
  }

  /** Indices that differ by a multiple of the list length give the same path. */
  lemma ImagePathPeriodic(d: Dict, name: string, index: int, k: int, root: string, category: string)
    requires Valid(d)
    requires name in d.entries && IsCategoryKey(category)
    ensures var n := |CategoryList(d.entries[name], category).value|;
            ImagePath(d, name, index + k * n, root, category) == ImagePath(d, name, index, root, category)
  {
    LocatePeriodic(d, name, index, k, category);
  }

  /** Euclidean remainders are unique. */
  lemma ModUnique(x: int, q: int, r: int, n: int)
    requires n > 0 && 0 <= r < n && x == q * n + r
    ensures x % n == r
  {
    var q2, r2 := x / n, x % n;
    assert x == q2 * n + r2;
    assert (q - q2) * n == r2 - r;
    if q - q2 >= 1 {
      MulAtLeast(q - q2, n);
    } else if q2 - q >= 1 {
      MulAtLeast(q2 - q, n);
    }
  }

  lemma MulAtLeast(m: int, n: int)
    requires m >= 1 && n > 0
    ensures m * n >= n
  {
  }

  lemma ModMultiple(a: int, k: int, n: int)
    requires n > 0
    ensures (a + k * n) % n == a % n
  {
    var q, r := a / n, a % n;
    assert a + k * n == (q + k) * n + r;
    ModUnique(a + k * n, q + k, r, n);
  }

  /** The path found ends in the base name stored in the list, at position
      `index % len(list)`. */
  lemma ImagePathBasename(d: Dict, name: string, index: int, root: string, category: string)
    requires Valid(d)
    requires ImagePath(d, name, index, root, category).Success?
    requires forall x :: x in CategoryList(d.entries[name], category).value ==> Sep !in x
    ensures var list := CategoryList(d.entries[name], category).value;
            Basename(ImagePath(d, name, index, root, category).value) == list[index % |list|]
  {
    var list := CategoryList(d.entries[name], category).value;
    var base := list[index % |list|];
    BasenameOfJoin(Join(root, d.entries[name].dir), base);
  }

  /** The cache file is named after the image: its base name is the image's
      base name with `.txt` appended. */
  lemma BottleneckPathBasename(d: Dict, name: string, index: int, bottleneckDir: string, category: string)
    requires Valid(d)
    requires BottleneckPath(d, name, index, bottleneckDir, category).Success?
    requires forall x :: x in CategoryList(d.entries[name], category).value ==> Sep !in x
    ensures var list := CategoryList(d.entries[name], category).value;
            Basename(BottleneckPath(d, name, index, bottleneckDir, category).value) == list[index % |list|] + ".txt"
  {
    var list := CategoryList(d.entries[name], category).value;
    assert Locate(d, name, index, category).value.1 == list[index % |list|];
    CachePathBasename(d, name, index, bottleneckDir, category);
  }

  /** The base name of the cache path is the located base name plus `.txt`. */
  lemma CachePathBasename(d: Dict, name: string, index: int, bottleneckDir: string, category: string)
    requires Valid(d)
    requires Locate(d, name, index, category).Success?
    requires Sep !in Locate(d, name, index, category).value.1
    ensures BottleneckPath(d, name, index, bottleneckDir, category).Success?
    ensures Basename(BottleneckPath(d, name, index, bottleneckDir, category).value)
         == Locate(d, name, index, category).value.1 + ".txt"
  {
    var loc := Locate(d, name, index, category).value;
    var dir := Join(bottleneckDir, loc.0);
    var cache := BottleneckPath(d, name, index, bottleneckDir, category);
    assert cache.Success? && cache.value == Join(dir, loc.1) + ".txt";
    CacheFileName(cache.value, dir, loc.1);
  }

  lemma CacheFileName(cache: string, dir: string, base: string)
    requires Sep !in base && cache == Join(dir, base) + ".txt"
    ensures Basename(cache) == base + ".txt"
  {
    BasenameOfJoinExt(dir, base, ".txt");
  }

  /** Every list of every label the image directory produces, the `dir`
      characters included, holds only separator-free names, so the base-name
      lemmas above apply to every dictionary `create_image_lists` returns. */
  lemma CreatedListsHoldBaseNames(env: Env, walk: seq<string>, testingPct: real, validationPct: real,
                                  name: string, category: string)
    requires name in CreateImageLists(env, true, walk, testingPct, validationPct).value.entries
    requires IsCategoryKey(category)
    ensures var e := CreateImageLists(env, true, walk, testingPct, validationPct).value.entries[name];
            forall x :: x in CategoryList(e, category).value ==> Sep !in x
  {
    var e := CreateImageLists(env, true, walk, testingPct, validationPct).value.entries[name];
    CreateImageListsLastWins(env, walk, testingPct, validationPct, name);
    if category == "dir" {
      var j :| 1 <= j < |walk| && Produces(env, walk[j], name) && Basename(walk[j]) == e.dir;
      DirListNoSep(e);
      return;
    }
    var files := ClassFiles(env, e.dir);
    SelectNoSep(files, env.hash, testingPct, validationPct, Training);
    SelectNoSep(files, env.hash, testingPct, validationPct, Testing);
    SelectNoSep(files, env.hash, testingPct, validationPct, Validation);
  }

  /** The one-character strings of a separator-free `dir` hold no separator. */
  lemma DirListNoSep(e: LabelLists)
    requires Sep !in e.dir
    ensures forall x :: x in CategoryList(e, "dir").value ==> Sep !in x
  {
    var list := CategoryList(e, "dir").value;
    forall x | x in list ensures Sep !in x {
      var i :| 0 <= i < |list| && list[i] == x;
      assert x == [e.dir[i]];
      assert e.dir[i] in e.dir;
    }
  }

  /** For every dictionary `create_image_lists` returns, the path found ends
      in the file name at position `index % len(list)`. */
  lemma CreatedImagePathBasename(env: Env, walk: seq<string>, testingPct: real, validationPct: real,
                                 name: string, index: int, root: string, category: string)
    requires var d := CreateImageLists(env, true, walk, testingPct, validationPct).value;
             ImagePath(d, name, index, root, category).Success?
    ensures var d := CreateImageLists(env, true, walk, testingPct, validationPct).value;
            var list := CategoryList(d.entries[name], category).value;
            Basename(ImagePath(d, name, index, root, category).value) == list[index % |list|]
  {
    var d := CreateImageLists(env, true, walk, testingPct, validationPct).value;
    CreatedListsHoldBaseNames(env, walk, testingPct, validationPct, name, category);
    ImagePathBasename(d, name, index, root, category);
  }
}
