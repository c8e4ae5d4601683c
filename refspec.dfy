/** Matching a reference name against one side of a fetch refspec and
    rewriting it into the other side (`match_refspec`, following the refspec
    syntax of Pro Git, "Git Internals - The Refspec"). A side without `*` is
    a literal name; a side with `*` is a prefix and a suffix around it. */
module Refspec {
  import opened Wrappers
  import opened PyStr

  /** The shape the source asserts for a wildcard side: a non-empty prefix
      ends with `/` and a non-empty suffix starts with `/`. */
  predicate SlashBounded(pre: string, post: string) {
    (pre == [] || pre[|pre| - 1] == '/') && (post == [] || post[0] == '/')
  }

  /** `ref` ends with `post`. */
  predicate EndsWith(ref: string, post: string) {
    |post| <= |ref| && ref[|ref| - |post|..] == post
  }

  /** `match_refspec` as written: the prefix and the suffix are sliced out of
      `ref` independently, so a `ref` shorter than prefix plus suffix can
      match with the two slices overlapping. */
  function MatchRefspec(ref: string, spec: string, otherSpec: string): Result<Option<string>>
  {
    var (pre, star, post) := Partition(spec, '*');
    var (otherPre, otherStar, otherPost) := Partition(otherSpec, '*');
    if !star then
      if otherStar then Err(AssertionError)
      else Ok(if ref == spec then Some(otherSpec) else None)
    else if !otherStar then Err(AssertionError)
    else if !SlashBounded(otherPre, otherPost) || !SlashBounded(pre, post) then Err(AssertionError)
    else
      var n := |ref|;
      var prefix := Slice(ref, 0, |pre|);
      var infix := Slice(ref, |pre|, n - |post|);
      var suffix := Slice(ref, n - |post|, n);
      if prefix == pre && suffix == post then Ok(Some(otherPre + infix + otherPost)) else Ok(None)
  }

  /** The corrected matcher: as above, but a wildcard side matches only a
      `ref` at least as long as its prefix and suffix together, so that the
      captured middle is exactly what lies between them. The reconciliation
      of references uses this one. */
  function MatchRefspecStrict(ref: string, spec: string, otherSpec: string): Result<Option<string>>
  {
    var (pre, star, post) := Partition(spec, '*');
    var (otherPre, otherStar, otherPost) := Partition(otherSpec, '*');
    if !star then
      if otherStar then Err(AssertionError)
      else Ok(if ref == spec then Some(otherSpec) else None)
    else if !otherStar then Err(AssertionError)
    else if !SlashBounded(otherPre, otherPost) || !SlashBounded(pre, post) then Err(AssertionError)
    else if |ref| >= |pre| + |post| && pre <= ref && EndsWith(ref, post) then
      Ok(Some(otherPre + ref[|pre|..|ref| - |post|] + otherPost))
    else
      Ok(None)
  }

  /** A wildcard side written out: prefix, `*`, suffix. */
  predicate WildcardSide(spec: string, pre: string, post: string) {
    '*' !in pre && spec == pre + "*" + post && SlashBounded(pre, post)
  }

  lemma WildcardPartition(spec: string, pre: string, post: string)
    requires '*' !in pre && spec == pre + "*" + post
    ensures Partition(spec, '*') == (pre, true, post)
  {
    PartitionAt(pre, '*', post);
  }

  /** A literal refspec pair: the other side exactly when `ref` equals the
      spec, whatever the shape of `ref`, and no match otherwise. */
  lemma LiteralMatch(ref: string, spec: string, otherSpec: string)
    requires '*' !in spec && '*' !in otherSpec
    ensures MatchRefspec(ref, spec, otherSpec) == Ok(if ref == spec then Some(otherSpec) else None)
    ensures MatchRefspecStrict(ref, spec, otherSpec) == MatchRefspec(ref, spec, otherSpec)
  {
    PartitionSplits(spec, '*');
    PartitionSplits(otherSpec, '*');
  }

  /** Mixing a literal and a wildcard side is an assertion failure, in either order. */
  lemma MixedSidesFail(ref: string, spec: string, otherSpec: string)
    requires ('*' in spec) != ('*' in otherSpec)
    ensures MatchRefspec(ref, spec, otherSpec) == Err(AssertionError)
    ensures MatchRefspecStrict(ref, spec, otherSpec) == Err(AssertionError)
  {
    PartitionSplits(spec, '*');
    PartitionSplits(otherSpec, '*');
  }

  /** What the as-written matcher gives for a pair of wildcard sides: the
      other prefix, the slice between prefix and suffix (empty when the two
      overlap) and the other suffix, when `ref` starts with the prefix and
      ends with the suffix. */
  function WildcardResult(ref: string, pre: string, post: string, otherPre: string, otherPost: string): Option<string>
  {
    if pre <= ref && EndsWith(ref, post) then
      Some(otherPre + (if |pre| <= |ref| - |post| then ref[|pre|..|ref| - |post|] else "") + otherPost)
    else None
  }

  /** What the corrected matcher gives for a pair of wildcard sides. */
  function StrictResult(ref: string, pre: string, post: string, otherPre: string, otherPost: string): Option<string>
  {
    if |ref| >= |pre| + |post| && pre <= ref && EndsWith(ref, post) then
      Some(otherPre + ref[|pre|..|ref| - |post|] + otherPost)
    else None
  }

  /** As written, a wildcard match needs `ref` to start with the prefix and
      end with the suffix, and yields the other prefix, the slice between
      them (empty when the two overlap) and the other suffix. */
  lemma WildcardMatch(ref: string, spec: string, pre: string, post: string,
                      otherSpec: string, otherPre: string, otherPost: string)
    requires WildcardSide(spec, pre, post) && WildcardSide(otherSpec, otherPre, otherPost)
    ensures MatchRefspec(ref, spec, otherSpec) == Ok(WildcardResult(ref, pre, post, otherPre, otherPost))
  {
    WildcardPartition(spec, pre, post);
    WildcardPartition(otherSpec, otherPre, otherPost);
    SliceFacts(ref, pre, post);
  }

  /** The three slices `match_refspec` takes, in terms of prefixes and
      suffixes. */
  lemma SliceFacts(ref: string, pre: string, post: string)
    ensures Slice(ref, 0, |pre|) == pre <==> pre <= ref
    ensures Slice(ref, |ref| - |post|, |ref|) == post <==> EndsWith(ref, post)
    ensures pre <= ref && EndsWith(ref, post) ==>
              Slice(ref, |pre|, |ref| - |post|)
              == if |pre| <= |ref| - |post| then ref[|pre|..|ref| - |post|] else ""
  {
    var n := |ref|;
    if |pre| <= n { assert Slice(ref, 0, |pre|) == ref[..|pre|]; }
    if |post| <= n { assert Slice(ref, n - |post|, n) == ref[n - |post|..]; }
  }

  /** When `ref` is at least as long as prefix and suffix together, the
      as-written match decomposes `ref` as prefix + captured + suffix, and
      matching the result against the swapped pair gives `ref` back. */
  lemma LongMatchRoundTrip(ref: string, spec: string, pre: string, post: string,
                           otherSpec: string, otherPre: string, otherPost: string)
    requires WildcardSide(spec, pre, post) && WildcardSide(otherSpec, otherPre, otherPost)
    requires |ref| >= |pre| + |post|
    requires MatchRefspec(ref, spec, otherSpec).Ok? && MatchRefspec(ref, spec, otherSpec).value.Some?
    ensures var infix := ref[|pre|..|ref| - |post|];
            && ref == pre + infix + post
            && MatchRefspec(ref, spec, otherSpec) == Ok(Some(otherPre + infix + otherPost))
            && MatchRefspec(otherPre + infix + otherPost, otherSpec, spec) == Ok(Some(ref))
  {
    WildcardMatch(ref, spec, pre, post, otherSpec, otherPre, otherPost);
    var infix := ref[|pre|..|ref| - |post|];
    WildcardResultBack(ref, pre, post, otherPre, otherPost);
    WildcardMatch(otherPre + infix + otherPost, otherSpec, otherPre, otherPost, spec, pre, post);
  }

  lemma WildcardResultBack(ref: string, pre: string, post: string, otherPre: string, otherPost: string)
    requires |ref| >= |pre| + |post| && WildcardResult(ref, pre, post, otherPre, otherPost).Some?
    ensures var infix := ref[|pre|..|ref| - |post|];
            && ref == pre + infix + post
            && WildcardResult(ref, pre, post, otherPre, otherPost) == Some(otherPre + infix + otherPost)
            && WildcardResult(otherPre + infix + otherPost, otherPre, otherPost, pre, post) == Some(ref)
  {
    var infix := ref[|pre|..|ref| - |post|];
    Decompose(ref, |pre|, |ref| - |post|);
    Pieces(otherPre, infix, otherPost);
  }

  /** A string is its three slices at two cut points. */
  lemma Decompose(s: string, i: nat, j: nat)
    requires i <= j <= |s|
    ensures s == s[..i] + s[i..j] + s[j..]
  {
  }

  /** The slices of a concatenation of three pieces are the pieces. */
  lemma Pieces(a: string, m: string, b: string)
    ensures var x := a + m + b;
            |x| == |a| + |m| + |b| && x[..|a|] == a && x[|x| - |b|..] == b && x[|a|..|x| - |b|] == m
  {
  }

  /** The corrected matcher succeeds exactly on the names of the form
      prefix + m + suffix, and rewrites m into the other side. */
  lemma StrictMatchIff(ref: string, spec: string, pre: string, post: string,
                       otherSpec: string, otherPre: string, otherPost: string, m: string)
    requires WildcardSide(spec, pre, post) && WildcardSide(otherSpec, otherPre, otherPost)
    ensures MatchRefspecStrict(ref, spec, otherSpec).Ok?
    ensures ref == pre + m + post ==> MatchRefspecStrict(ref, spec, otherSpec) == Ok(Some(otherPre + m + otherPost))
    ensures MatchRefspecStrict(ref, spec, otherSpec).value.Some? ==>
              ref == pre + ref[|pre|..|ref| - |post|] + post
  {
    StrictWildcard(ref, spec, pre, post, otherSpec, otherPre, otherPost);
    StrictResultIff(ref, pre, post, otherPre, otherPost, m);
  }

  lemma StrictWildcard(ref: string, spec: string, pre: string, post: string,
                       otherSpec: string, otherPre: string, otherPost: string)
    requires WildcardSide(spec, pre, post) && WildcardSide(otherSpec, otherPre, otherPost)
    ensures MatchRefspecStrict(ref, spec, otherSpec) == Ok(StrictResult(ref, pre, post, otherPre, otherPost))
  {
    WildcardPartition(spec, pre, post);
    WildcardPartition(otherSpec, otherPre, otherPost);
  }

  lemma StrictResultIff(ref: string, pre: string, post: string, otherPre: string, otherPost: string, m: string)
    ensures ref == pre + m + post ==> StrictResult(ref, pre, post, otherPre, otherPost) == Some(otherPre + m + otherPost)
    ensures StrictResult(ref, pre, post, otherPre, otherPost).Some? ==> ref == pre + ref[|pre|..|ref| - |post|] + post
  {
    if ref == pre + m + post {
      Pieces(pre, m, post);
    }
    if StrictResult(ref, pre, post, otherPre, otherPost).Some? {
      Decompose(ref, |pre|, |ref| - |post|);
    }
  }

  /** Round trip of the corrected matcher: rewriting a match back through the
      swapped pair gives the original name. */
  lemma StrictRoundTrip(ref: string, spec: string, pre: string, post: string,
                        otherSpec: string, otherPre: string, otherPost: string)
    requires WildcardSide(spec, pre, post) && WildcardSide(otherSpec, otherPre, otherPost)
    requires MatchRefspecStrict(ref, spec, otherSpec).Ok?
    requires MatchRefspecStrict(ref, spec, otherSpec).value.Some?
    ensures MatchRefspecStrict(MatchRefspecStrict(ref, spec, otherSpec).value.value, otherSpec, spec) == Ok(Some(ref))
  {
    var m := ref[|pre|..|ref| - |post|];
    StrictMatchIff(ref, spec, pre, post, otherSpec, otherPre, otherPost, m);
    StrictMatchIff(ref, spec, pre, post, otherSpec, otherPre, otherPost, m);
    StrictMatchIff(otherPre + m + otherPost, otherSpec, otherPre, otherPost, spec, pre, post, m);
  }

  /** On names long enough to hold prefix and suffix, the corrected matcher
      agrees with the one as written. */
  lemma StrictAgreesOnLongRefs(ref: string, spec: string, otherSpec: string)
    requires var (pre, star, post) := Partition(spec, '*'); |ref| >= |pre| + |post|
    ensures MatchRefspecStrict(ref, spec, otherSpec) == MatchRefspec(ref, spec, otherSpec)
  {
    var (pre, star, post) := Partition(spec, '*');
    var n := |ref|;
    if star {
      assert Slice(ref, 0, |pre|) == ref[..|pre|];
      assert Slice(ref, n - |post|, n) == ref[n - |post|..];
      assert Slice(ref, |pre|, n - |post|) == ref[|pre|..n - |post|];
    }
  }

  /** The discrepancy, on a concrete name: "refs/x" is not "refs/" + m + "/x"
      for any m, yet the matcher as written maps it through the pair of
      wildcard sides "refs/" + star + "/x" and "refs/" + star + "/y" to
      "refs//y", and that result does not map back to "refs/x". The corrected
      matcher rejects it. */
  lemma OverlapFalseMatch()
    ensures forall m :: "refs/x" != "refs/" + m + "/x"
    ensures MatchRefspec("refs/x", "refs/*/x", "refs/*/y") == Ok(Some("refs//y"))
    ensures MatchRefspec("refs//y", "refs/*/y", "refs/*/x") == Ok(Some("refs//x"))
    ensures MatchRefspecStrict("refs/x", "refs/*/x", "refs/*/y") == Ok(None)
  {
    forall m ensures "refs/x" != "refs/" + m + "/x" {
      assert |"refs/" + m + "/x"| == 7 + |m|;
    }
    OverlapSides();
    OverlapForward();
    OverlapBack();
    OverlapStrict();
  }

  lemma OverlapSides()
    ensures WildcardSide("refs/*/x", "refs/", "/x") && WildcardSide("refs/*/y", "refs/", "/y")
  {
    assert "refs/*/x" == "refs/" + "*" + "/x";
    assert "refs/*/y" == "refs/" + "*" + "/y";
  }

  lemma OverlapForward()
    ensures MatchRefspec("refs/x", "refs/*/x", "refs/*/y") == Ok(Some("refs//y"))
  {
    OverlapSides();
    WildcardMatch("refs/x", "refs/*/x", "refs/", "/x", "refs/*/y", "refs/", "/y");
    ForwardResult();
  }

  lemma ForwardResult()
    ensures WildcardResult("refs/x", "refs/", "/x", "refs/", "/y") == Some("refs//y")
  {
    var ref := "refs/x";
    assert ref[..5] == "refs/";
    assert ref[4..] == "/x";
    assert "refs/" + "" + "/y" == "refs//y";
  }

  lemma OverlapBack()
    ensures MatchRefspec("refs//y", "refs/*/y", "refs/*/x") == Ok(Some("refs//x"))
  {
    OverlapSides();
    WildcardMatch("refs//y", "refs/*/y", "refs/", "/y", "refs/*/x", "refs/", "/x");
    BackResult();
  }

  lemma BackResult()
    ensures WildcardResult("refs//y", "refs/", "/y", "refs/", "/x") == Some("refs//x")
  {
    var ref := "refs//y";
    assert ref[..5] == "refs/";
    assert ref[5..] == "/y";
    assert ref[5..5] == "";
    assert "refs/" + "" + "/x" == "refs//x";
  }

  lemma OverlapStrict()
    ensures MatchRefspecStrict("refs/x", "refs/*/x", "refs/*/y") == Ok(None)
  {
    OverlapSides();
    WildcardPartition("refs/*/x", "refs/", "/x");
    WildcardPartition("refs/*/y", "refs/", "/y");
  }

  /** Reconciliation: whatever name the corrected matcher produces from
      `ref` through a pair of sides maps back to `ref` through the swapped
      pair, for literal and wildcard sides alike. */
  lemma StrictMatchBack(ref: string, spec: string, otherSpec: string)
    requires MatchRefspecStrict(ref, spec, otherSpec).Ok?
    requires MatchRefspecStrict(ref, spec, otherSpec).value.Some?
    ensures MatchRefspecStrict(MatchRefspecStrict(ref, spec, otherSpec).value.value, otherSpec, spec) == Ok(Some(ref))
  {
    PartitionSplits(spec, '*');
    PartitionSplits(otherSpec, '*');
    if '*' !in spec {
      LiteralMatch(ref, spec, otherSpec);
      LiteralMatch(otherSpec, otherSpec, spec);
    } else {
      var (pre, star, post) := Partition(spec, '*');
      var (otherPre, otherStar, otherPost) := Partition(otherSpec, '*');
      assert WildcardSide(spec, pre, post);
      assert WildcardSide(otherSpec, otherPre, otherPost);
      StrictRoundTrip(ref, spec, pre, post, otherSpec, otherPre, otherPost);
    }
  }
}
