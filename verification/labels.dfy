/** Class-label normalisation: `re.sub(r'[^a-z0-9]+', ' ', dir_name.lower())`. */
module Labels {

  /** The characters the label keeps: `[a-z0-9]`. */
  predicate IsLabelChar(c: char) {
    'a' <= c <= 'z' || '0' <= c <= '9'
  }

  /** ASCII `str.lower` of one character. */
  function LowerChar(c: char): (d: char)
    ensures 'A' <= c <= 'Z' ==> IsLabelChar(d) && d as int - c as int == 32
    ensures !('A' <= c <= 'Z') ==> d == c
  {
    if 'A' <= c <= 'Z' then (c as int + 32) as char else c
  }

  /** ASCII `str.lower`. */
  function Lower(s: string): (r: string)
    ensures |r| == |s|
    ensures forall i :: 0 <= i < |s| ==> r[i] == LowerChar(s[i])
  {
    seq(|s|, i requires 0 <= i < |s| => LowerChar(s[i]))
  }

  /** The label characters of `s`, in order. */
  function Alnums(s: string): (r: string)
    ensures |r| <= |s|
    ensures forall c :: c in r ==> IsLabelChar(c)
  {
    if s == [] then []
    else (if IsLabelChar(s[0]) then [s[0]] else []) + Alnums(s[1..])
  }

  /** A normalised label: only `[a-z0-9 ]` and never two spaces in a row. */
  ghost predicate Canonical(s: string) {
    && (forall i :: 0 <= i < |s| ==> IsLabelChar(s[i]) || s[i] == ' ')
    // stated over pairs (i, i + 1) so that `s[i]` and `s[j]` are separate
    // triggers and the quantifier does not instantiate itself in a loop
    && (forall i, j :: 0 <= i < j < |s| && j == i + 1 ==> s[i] != ' ' || s[j] != ' ')
  }

  /** Drops the run of non-label characters that `s` starts with. */
  function SkipRun(s: string): (r: string)
    ensures |r| <= |s| && r == s[|s| - |r|..]
    ensures r == [] || IsLabelChar(r[0])
    ensures forall i :: 0 <= i < |s| - |r| ==> !IsLabelChar(s[i])
    decreases |s|
  {
    if s == [] || IsLabelChar(s[0]) then s else SkipRun(s[1..])
  }

  /** Skipping a run of non-label characters loses no label character. */
  lemma {:induction false} SkipRunAlnums(s: string)
    ensures Alnums(SkipRun(s)) == Alnums(s)
    decreases |s|
  {
    if s != [] && !IsLabelChar(s[0]) {
      SkipRunAlnums(s[1..]);
    }
  }

  /** Replaces every maximal run of characters outside `[a-z0-9]` by one space. */
  function Collapse(s: string): (r: string)
    ensures |r| <= |s|
    ensures r == [] <==> s == []
    ensures r != [] ==> (r[0] == ' ' <==> !IsLabelChar(s[0]))
    decreases |s|
  {
    if s == [] then []
    else if IsLabelChar(s[0]) then [s[0]] + Collapse(s[1..])
    else [' '] + Collapse(SkipRun(s[1..]))
  }

  /** Whatever the input, the collapsed string is canonical. */
  lemma {:induction false} CollapseIsCanonical(s: string)
    ensures Canonical(Collapse(s))
    decreases |s|
  {
    if s != [] {
      var rest := if IsLabelChar(s[0]) then s[1..] else SkipRun(s[1..]);
      CollapseIsCanonical(rest);
      var head := if IsLabelChar(s[0]) then s[0] else ' ';
      var tail := Collapse(rest);
      assert Collapse(s) == [head] + tail;
      assert tail != [] && head == ' ' ==> tail[0] != ' ';
    }
  }

  /** Collapsing keeps every label character, in order. */
  lemma {:induction false} CollapseAlnums(s: string)
    ensures Alnums(Collapse(s)) == Alnums(s)
    decreases |s|
  {
    if s != [] {
      var r := Collapse(s);
      if IsLabelChar(s[0]) {
        CollapseAlnums(s[1..]);
        assert r[0] == s[0] && r[1..] == Collapse(s[1..]);
      } else {
        CollapseAlnums(SkipRun(s[1..]));
        SkipRunAlnums(s[1..]);
        assert r[0] == ' ' && r[1..] == Collapse(SkipRun(s[1..]));
      }
    }
  }

  /** The label `create_image_lists` derives from a class directory name: it
      is canonical and holds the directory name's lowercased letters and
      digits, in order. */
  function Normalize(dirName: string): (name: string)
    ensures |name| <= |dirName|
    ensures Canonical(name)
    ensures Alnums(name) == Alnums(Lower(dirName))
    ensures name == Emits(Lower(dirName), 0)
  {
    CollapseCharwise(Lower(dirName));
    CollapseIsCanonical(Lower(dirName));
    CollapseAlnums(Lower(dirName));
    Collapse(Lower(dirName))
  }

  /** Lowercasing leaves a canonical string alone. */
  lemma LowerCanonical(s: string)
    requires Canonical(s)
    ensures Lower(s) == s
  {
  }

  /** Collapsing leaves a canonical string alone. */
  lemma {:induction false} CollapseCanonical(s: string)
    requires Canonical(s)
    ensures Collapse(s) == s
    decreases |s|
  {
    if s != [] {
      var t := s[1..];
      assert Canonical(t);
      CollapseCanonical(t);
      if IsLabelChar(s[0]) {
        assert Collapse(s) == [s[0]] + t;
      } else {
        assert t == [] || IsLabelChar(t[0]) by {
          if t != [] {
            assert t[0] == s[1] && s[1] != ' ';
          }
        }
        assert SkipRun(t) == t;
        assert Collapse(s) == [' '] + t;
      }
      assert s == [s[0]] + t;
    }
  }

  /** The fixpoints of `Collapse` are exactly the canonical strings. */
  lemma CollapseFixpoint(s: string)
    ensures Collapse(s) == s <==> Canonical(s)
  {
    if Canonical(s) {
      CollapseCanonical(s);
    } else {
      CollapseIsCanonical(s);
    }
  }

  /** Normalising a label again leaves it unchanged. */
  lemma NormalizeIdempotent(dirName: string)
    ensures Normalize(Normalize(dirName)) == Normalize(dirName)
  {
    var name := Normalize(dirName);
    LowerCanonical(name);
    CollapseCanonical(name);
  }

  /** What character `i` of `s` contributes to the normalised label, judged
      from that character and its predecessor alone: a label character stays,
      the first character of a run of others becomes a space, and the rest of
      the run vanishes. */
  function EmitAt(s: string, i: nat): string
    requires i < |s|
  {
    if IsLabelChar(s[i]) then [s[i]]
    else if i == 0 || IsLabelChar(s[i - 1]) then [' ']
    else []
  }

  /** The contributions of characters `k..` of `s`, concatenated. */
  function Emits(s: string, k: nat): string
    requires k <= |s|
    decreases |s| - k
  {
    if k == |s| then [] else EmitAt(s, k) + Emits(s, k + 1)
  }

  /** Inside a run of non-label characters nothing is emitted. */
  lemma {:induction false} EmitsInsideRun(s: string, k: nat, j: nat)
    requires k < j <= |s|
    requires forall i :: k <= i < j ==> !IsLabelChar(s[i])
    ensures Emits(s, k + 1) == Emits(s, j)
    decreases j - k
  {
    if k + 1 < j {
      assert !IsLabelChar(s[k]) && !IsLabelChar(s[k + 1]);
      assert Emits(s, k + 1) == EmitAt(s, k + 1) + Emits(s, k + 2);
      EmitsInsideRun(s, k + 1, j);
    }
  }

  /** `SkipRun` of a suffix of `s` is again a suffix of `s`, starting at the
      first label character at or after `k`. */
  lemma SkipRunSuffix(s: string, k: nat) returns (j: nat)
    requires k <= |s|
    ensures k <= j <= |s| && SkipRun(s[k..]) == s[j..]
    ensures forall i :: k <= i < j ==> !IsLabelChar(s[i])
    ensures j == |s| || IsLabelChar(s[j])
  {
    var rest := SkipRun(s[k..]);
    j := |s| - |rest|;
    assert rest == s[j..];
    forall i | k <= i < j ensures !IsLabelChar(s[i]) {
      assert s[i] == s[k..][i - k];
    }
    if j < |s| {
      assert rest[0] == s[j];
    }
  }

  /** One step of `Collapse` over a run starting at `k` and ending before `j`. */
  lemma CollapseRunStep(s: string, k: nat, j: nat)
    requires k < j <= |s| && !IsLabelChar(s[k])
    requires SkipRun(s[k + 1..]) == s[j..]
    ensures Collapse(s[k..]) == [' '] + Collapse(s[j..])
  {
    var t := s[k..];
    assert t[0] == s[k] && t[1..] == s[k + 1..];
  }

  /** A label character at `k` is kept by both `Collapse` and `Emits`. */
  lemma CharwiseLabelStep(s: string, k: nat)
    requires k < |s| && IsLabelChar(s[k])
    requires Collapse(s[k + 1..]) == Emits(s, k + 1)
    ensures Collapse(s[k..]) == Emits(s, k)
  {
    var t := s[k..];
    assert t[0] == s[k] && t[1..] == s[k + 1..];
    assert Collapse(t) == [s[k]] + Collapse(s[k + 1..]);
  }

  /** A run starting at `k` (not preceded by another non-label character)
      becomes one space under both `Collapse` and `Emits`. */
  lemma CharwiseRunStep(s: string, k: nat, j: nat)
    requires k < j <= |s| && !IsLabelChar(s[k])
    requires k == 0 || IsLabelChar(s[k - 1])
    requires SkipRun(s[k + 1..]) == s[j..]
    requires forall i :: k + 1 <= i < j ==> !IsLabelChar(s[i])
    requires Collapse(s[j..]) == Emits(s, j)
    ensures Collapse(s[k..]) == Emits(s, k)
  {
    CollapseRunStep(s, k, j);
    assert Emits(s, k) == [' '] + Emits(s, k + 1);
    EmitsInsideRun(s, k, j);
  }

  /** `Collapse` of a suffix that does not start inside a run agrees with the
      character-local rule. */
  lemma {:induction false} CollapseSuffixCharwise(s: string, k: nat)
    requires k <= |s|
    requires k == 0 || k == |s| || IsLabelChar(s[k - 1]) || IsLabelChar(s[k])
    ensures Collapse(s[k..]) == Emits(s, k)
    decreases |s| - k
  {
    if k < |s| && IsLabelChar(s[k]) {
      CollapseSuffixCharwise(s, k + 1);
      CharwiseLabelStep(s, k);
    } else if k < |s| {
      var j := SkipRunSuffix(s, k + 1);
      CollapseSuffixCharwise(s, j);
      CharwiseRunStep(s, k, j);
    }
  }

  /** `Collapse` turns each maximal run of non-label characters into exactly
      one space and keeps every label character: it agrees with the
      character-local rule `EmitAt` everywhere. */
  lemma CollapseCharwise(s: string)
    ensures Collapse(s) == Emits(s, 0)
  {
    assert s[0..] == s;
    CollapseSuffixCharwise(s, 0);
  }
}
