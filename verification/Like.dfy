/**
 The backtracking `LIKE` matcher of the predicate evaluator.

 `Matches` is SQL's LIKE without ESCAPE (section 8.5 of ISO/IEC 9075-2), stated by splitting the text.
 `Run` is what the matcher's loop computes from one of its states, and `LikeMatch` is the loop itself.
 The loop tests "same character" before it tests `%`, so a `%` in the text can be taken literally.
 */
module Like {
  import opened Basics

  /** SQL LIKE: `%` stands for any split-off piece of the text, `_` for one character. */
  ghost predicate Matches(t: string, p: string)
    decreases |p|
  {
    if p == [] then t == []
    else if p[0] == '%' then exists k: nat | k <= |t| :: Matches(t[k..], p[1..])
    else t != [] && (p[0] == '_' || p[0] == t[0]) && Matches(t[1..], p[1..])
  }

  /** The loop's own test for consuming one character of each side. */
  predicate SameChar(c: char, q: char) {
    q == '_' || q == c
  }

  function SkipPercents(p: string, pi: nat): (end: nat)
    requires pi <= |p|
    ensures pi <= end <= |p|
    ensures end < |p| ==> p[end] != '%'
    ensures forall k | pi <= k < end :: p[k] == '%'
    decreases |p| - pi
  {
    if pi < |p| && p[pi] == '%' then SkipPercents(p, pi + 1) else pi
  }

  /** What the matcher still answers from text position `ti` and pattern position `pi`, having last
      seen a `%` at `star` and tried it against the text from `starText`. */
  predicate Run(t: string, p: string, ti: nat, pi: nat, star: Option<nat>, starText: nat)
    requires ti <= |t| && pi <= |p|
    requires starText <= ti && (star.Some? ==> star.value < pi)
    decreases if star.Some? then |p| - star.value else |p| + 1, |t| - starText, |t| - ti
  {
    if ti == |t| then
      SkipPercents(p, pi) == |p|
    else if pi < |p| && SameChar(t[ti], p[pi]) then
      Run(t, p, ti + 1, pi + 1, star, starText)
    else if pi < |p| && p[pi] == '%' then
      Run(t, p, ti, pi + 1, Some(pi), ti)
    else if star.Some? then
      Run(t, p, starText + 1, star.value + 1, star, starText + 1)
    else
      false
  }

  /** The answer the matcher gives. */
  predicate Answer(t: string, p: string) {
    Run(t, p, 0, 0, None, 0)
  }

  method LikeMatch(text: string, pattern: string) returns (matched: bool)
    ensures matched == Answer(text, pattern)
    ensures matched ==> Matches(text, pattern)
    ensures '%' !in text || '%' !in pattern ==> (matched <==> Matches(text, pattern))
  {
    if Answer(text, pattern) {
      AcceptsOnlyMatches(text, pattern);
    }
    if '%' !in text || '%' !in pattern {
      Agrees(text, pattern);
    }
    var ti, pi, starText := 0, 0, 0;
    var star: Option<nat> := None;
    while ti < |text|
      invariant 0 <= ti <= |text| && 0 <= pi <= |pattern|
      invariant starText <= ti && (star.Some? ==> star.value < pi)
      invariant Run(text, pattern, ti, pi, star, starText) == Answer(text, pattern)
      decreases if star.Some? then |pattern| - star.value else |pattern| + 1, |text| - starText, |text| - ti
    {
      if pi < |pattern| && (pattern[pi] == '_' || pattern[pi] == text[ti]) {
        ti := ti + 1;
        pi := pi + 1;
      } else if pi < |pattern| && pattern[pi] == '%' {
        star := Some(pi);
        starText := ti;
        pi := pi + 1;
      } else if star.Some? {
        pi := star.value + 1;
        starText := starText + 1;
        ti := starText;
      } else {
        return false;
      }
    }
    while pi < |pattern| && pattern[pi] == '%'
      invariant pi <= |pattern|
      invariant SkipPercents(pattern, pi) == |pattern| <==> Answer(text, pattern)
    {
      pi := pi + 1;
    }
    matched := pi == |pattern|;
  }

  // ---- Soundness: an accepting run is a LIKE match ------------------------------------------------

  /** A `%` may stand for one character more. */
  lemma PercentAbsorbs(t: string, p: string)
    requires p != [] && p[0] == '%' && t != [] && Matches(t[1..], p)
    ensures Matches(t, p)
  {
    var k: nat :| k <= |t[1..]| && Matches(t[1..][k..], p[1..]);
    assert t[1..][k..] == t[k + 1..];
  }

  lemma PercentsMatchNothing(p: string, pi: nat)
    requires pi <= |p|
    ensures Matches([], p[pi..]) <==> SkipPercents(p, pi) == |p|
    decreases |p| - pi
  {
    if pi < |p| && p[pi] == '%' {
      PercentsMatchNothing(p, pi + 1);
      assert p[pi..][1..] == p[pi + 1..];
      assert forall k: nat | k <= |""| :: ""[k..] == "";
      assert Matches([], p[pi + 1..]) ==> Matches(""[0..], p[pi..][1..]);
    }
  }

  /** One literal step of the matcher, `%` against `%` included, is sound for LIKE. */
  lemma StepSound(t: string, p: string, ti: nat, pi: nat)
    requires ti < |t| && pi < |p| && SameChar(t[ti], p[pi])
    requires Matches(t[ti + 1..], p[pi + 1..])
    ensures Matches(t[ti..], p[pi..])
  {
    assert t[ti..][1..] == t[ti + 1..] && p[pi..][1..] == p[pi + 1..];
  }

  lemma {:induction false} Sound(t: string, p: string, ti: nat, pi: nat, star: Option<nat>, starText: nat)
    requires ti <= |t| && pi <= |p|
    requires starText <= ti && (star.Some? ==> star.value < pi && p[star.value] == '%')
    requires Run(t, p, ti, pi, star, starText)
    ensures Matches(t[ti..], p[pi..]) || (star.Some? && Matches(t[starText..], p[star.value..]))
    decreases if star.Some? then |p| - star.value else |p| + 1, |t| - starText, |t| - ti
  {
    if ti == |t| {
      PercentsMatchNothing(p, pi);
      assert t[ti..] == [];
    } else if pi < |p| && SameChar(t[ti], p[pi]) {
      Sound(t, p, ti + 1, pi + 1, star, starText);
      if Matches(t[ti + 1..], p[pi + 1..]) {
        StepSound(t, p, ti, pi);
      }
    } else if pi < |p| && p[pi] == '%' {
      Sound(t, p, ti, pi + 1, Some(pi), ti);
      if Matches(t[ti..], p[pi + 1..]) {
        assert p[pi..][1..] == p[pi + 1..] && t[ti..][0..] == t[ti..];
      }
    } else {
      var s := star.value;
      Sound(t, p, starText + 1, s + 1, star, starText + 1);
      if Matches(t[starText + 1..], p[s + 1..]) {
        assert t[starText..][1..] == t[starText + 1..] && p[s..][1..] == p[s + 1..];
      } else {
        assert t[starText..][1..] == t[starText + 1..];
        PercentAbsorbs(t[starText..], p[s..]);
      }
    }
  }

  // ---- Completeness where no `%` of the text meets a `%` of the pattern ---------------------------

  /** `p[from..from + n]` holds no `%` and fits `t[at..at + n]` character by character. */
  ghost predicate Fits(t: string, p: string, at: nat, from: nat, n: nat)
    requires at + n <= |t| && from + n <= |p|
  {
    forall k | from <= k < from + n :: p[k] != '%' && SameChar(t[at + (k - from)], p[k])
  }

  /** A match of a percent-free piece followed by anything consumes exactly the piece's length. */
  lemma {:induction false} PieceIsRigid(t: string, p: string, from: nat, n: nat)
    requires from + n <= |p|
    requires forall k | from <= k < from + n :: p[k] != '%'
    requires Matches(t, p[from..])
    ensures n <= |t| && Matches(t[n..], p[from + n..])
    ensures forall k | from <= k < from + n :: SameChar(t[k - from], p[k])
    decreases n
  {
    if n > 0 {
      assert p[from..][0] == p[from] && p[from..][1..] == p[from + 1..];
      PieceIsRigid(t[1..], p, from + 1, n - 1);
      assert t[1..][n - 1..] == t[n..];
    } else {
      assert t[0..] == t;
    }
  }

  /** Trying the earliest place for the piece between two `%`s loses no match. */
  lemma EarliestPlaceSuffices(t: string, p: string, ti: nat, pi: nat, s: nat, starText: nat)
    requires ti <= |t| && s < pi < |p| && starText <= ti
    requires p[s] == '%' && p[pi] == '%'
    requires pi - (s + 1) == ti - starText && Fits(t, p, starText, s + 1, ti - starText)
    requires Matches(t[starText..], p[s..])
    ensures Matches(t[ti..], p[pi..])
  {
    var u := t[starText..];
    assert p[s..][1..] == p[s + 1..];
    var k: nat :| k <= |u| && Matches(u[k..], p[s + 1..]);
    var n := ti - starText;
    PieceIsRigid(u[k..], p, s + 1, n);
    assert u[k..][n..] == t[ti + k..];
    assert p[s + 1 + n..] == p[pi..];
    AbsorbMany(t, p, ti, pi, k);
  }

  lemma {:induction false} AbsorbMany(t: string, p: string, ti: nat, pi: nat, k: nat)
    requires pi < |p| && p[pi] == '%' && ti + k <= |t|
    requires Matches(t[ti + k..], p[pi..])
    ensures Matches(t[ti..], p[pi..])
    decreases k
  {
    if k > 0 {
      assert t[ti + k - 1..][1..] == t[ti + k..];
      PercentAbsorbs(t[ti + k - 1..], p[pi..]);
      AbsorbMany(t, p, ti, pi, k - 1);
    }
  }

  /** The matcher's states from which it still has to find a match: what it has consumed since the last
      `%` fits, and LIKE holds from that `%` (from here, if there was none). */
  ghost predicate Owed(t: string, p: string, ti: nat, pi: nat, star: Option<nat>, starText: nat) {
    && starText <= ti <= |t| && pi <= |p|
    && (star.None? ==> Matches(t[ti..], p[pi..]))
    && (star.Some? ==>
          && star.value < pi && p[star.value] == '%'
          && pi - (star.value + 1) == ti - starText
          && Fits(t, p, starText, star.value + 1, ti - starText)
          && Matches(t[starText..], p[star.value..]))
  }

  lemma OwedAfterChar(t: string, p: string, ti: nat, pi: nat, star: Option<nat>, starText: nat)
    requires Owed(t, p, ti, pi, star, starText)
    requires ti < |t| && pi < |p| && SameChar(t[ti], p[pi]) && p[pi] != '%'
    ensures Owed(t, p, ti + 1, pi + 1, star, starText)
  {
    if star.None? {
      assert t[ti..][1..] == t[ti + 1..] && p[pi..][1..] == p[pi + 1..];
      assert t[ti..] != [] && p[pi..] != [] && p[pi..][0] == p[pi];
    }
  }

  lemma OwedAfterPercent(t: string, p: string, ti: nat, pi: nat, star: Option<nat>, starText: nat)
    requires Owed(t, p, ti, pi, star, starText)
    requires ti < |t| && pi < |p| && p[pi] == '%'
    ensures Owed(t, p, ti, pi + 1, Some(pi), ti)
  {
    if star.Some? {
      EarliestPlaceSuffices(t, p, ti, pi, star.value, starText);
    }
  }

  lemma OwedAfterRetreat(t: string, p: string, ti: nat, pi: nat, star: Option<nat>, starText: nat)
    requires Owed(t, p, ti, pi, star, starText)
    requires ti < |t| && (pi < |p| ==> !SameChar(t[ti], p[pi]) && p[pi] != '%')
    ensures star.Some? && Owed(t, p, starText + 1, star.value + 1, star, starText + 1)
  {
    RefusedHere(t, p, ti, pi);
    DeadEndMovesOn(t, p, ti, pi, star.value, starText);
  }

  lemma {:induction false} Complete(t: string, p: string, ti: nat, pi: nat, star: Option<nat>, starText: nat)
    requires '%' !in t || '%' !in p
    requires Owed(t, p, ti, pi, star, starText)
    ensures Run(t, p, ti, pi, star, starText)
    decreases if star.Some? then |p| - star.value else |p| + 1, |t| - starText, |t| - ti
  {
    if ti == |t| {
      CompleteAtEnd(t, p, pi, star, starText);
    } else if pi < |p| && SameChar(t[ti], p[pi]) {
      assert t[ti] in t && p[pi] in p;
      OwedAfterChar(t, p, ti, pi, star, starText);
      Complete(t, p, ti + 1, pi + 1, star, starText);
    } else if pi < |p| && p[pi] == '%' {
      OwedAfterPercent(t, p, ti, pi, star, starText);
      Complete(t, p, ti, pi + 1, Some(pi), ti);
    } else {
      OwedAfterRetreat(t, p, ti, pi, star, starText);
      Complete(t, p, starText + 1, star.value + 1, star, starText + 1);
    }
  }

  /** When the piece after the last `%` cannot be completed where it was tried, a match has it later. */
  lemma DeadEndMovesOn(t: string, p: string, ti: nat, pi: nat, s: nat, starText: nat)
    requires ti < |t| && s < pi <= |p| && starText <= ti
    requires p[s] == '%' && pi - (s + 1) == ti - starText && Fits(t, p, starText, s + 1, ti - starText)
    requires Matches(t[starText..], p[s..]) && !Matches(t[ti..], p[pi..])
    ensures Matches(t[starText + 1..], p[s..])
  {
    var u := t[starText..];
    assert p[s..][1..] == p[s + 1..];
    var k: nat :| k <= |u| && Matches(u[k..], p[s + 1..]);
    PieceIsRigid(u[k..], p, s + 1, ti - starText);
    assert p[s + 1 + (ti - starText)..] == p[pi..];
    assert u[k..][ti - starText..] == t[ti + k..];
    assert k > 0;
    assert t[starText + 1..][k - 1..] == u[k..];
  }

  lemma RefusedHere(t: string, p: string, ti: nat, pi: nat)
    requires ti < |t| && pi <= |p|
    requires pi < |p| ==> !SameChar(t[ti], p[pi]) && p[pi] != '%'
    ensures !Matches(t[ti..], p[pi..])
  {
    if pi < |p| {
      assert p[pi..][0] == p[pi] && t[ti..][0] == t[ti];
    }
  }

  lemma CompleteAtEnd(t: string, p: string, pi: nat, star: Option<nat>, starText: nat)
    requires Owed(t, p, |t|, pi, star, starText)
    ensures SkipPercents(p, pi) == |p|
  {
    PercentsMatchNothing(p, pi);
    assert t[|t|..] == [];
    if star.Some? {
      var s, u := star.value, t[starText..];
      assert p[s..][1..] == p[s + 1..];
      var k: nat :| k <= |u| && Matches(u[k..], p[s + 1..]);
      PieceIsRigid(u[k..], p, s + 1, |u|);
      assert k == 0 && u[k..][|u|..] == [] && p[s + 1 + |u|..] == p[pi..];
    }
  }

  // ---- Exactly when the matcher is SQL's LIKE -----------------------------------------------------

  /** A text is matched correctly against every pattern exactly when it contains no `%`. */
  lemma CorrectTextIff(t: string)
    ensures (forall p: string :: Answer(t, p) <==> Matches(t, p)) <==> '%' !in t
  {
    if '%' !in t {
      forall p: string
        ensures Answer(t, p) <==> Matches(t, p)
      {
        Agrees(t, p);
      }
    } else {
      var p := SpoilingPattern(t);
      assert Answer(t, p) != Matches(t, p);
    }
  }

  /** A pattern is matched correctly against every text exactly when it contains no `%`. */
  lemma CorrectPatternIff(p: string)
    ensures (forall t: string :: Answer(t, p) <==> Matches(t, p)) <==> '%' !in p
  {
    if '%' !in p {
      forall t: string
        ensures Answer(t, p) <==> Matches(t, p)
      {
        Agrees(t, p);
      }
    } else {
      var t := SpoilingText(p);
      assert Answer(t, p) != Matches(t, p);
    }
  }

  lemma Agrees(t: string, p: string)
    requires '%' !in t || '%' !in p
    ensures Answer(t, p) <==> Matches(t, p)
  {
    assert t[0..] == t && p[0..] == p;
    if Answer(t, p) {
      Sound(t, p, 0, 0, None, 0);
    }
    if Matches(t, p) {
      Complete(t, p, 0, 0, None, 0);
    }
  }

  /** Whatever the inputs, an accepted text is a LIKE match. */
  lemma AcceptsOnlyMatches(t: string, p: string)
    requires Answer(t, p)
    ensures Matches(t, p)
  {
    assert t[0..] == t && p[0..] == p;
    Sound(t, p, 0, 0, None, 0);
  }

  /** The pattern's characters as text, up to position `n`, and that text taken literally. */
  lemma {:induction false} LiteralRun(t: string, p: string, n: nat, i: nat)
    requires i <= n && n <= |t| && n <= |p|
    requires forall k | 0 <= k < n :: SameChar(t[k], p[k])
    ensures Run(t, p, i, i, None, 0) == Run(t, p, n, n, None, 0)
    decreases n - i
  {
    if i < n {
      LiteralRun(t, p, n, i + 1);
    }
  }

  lemma {:induction false} LiteralMatches(t: string, p: string, n: nat, i: nat)
    requires i <= n && n <= |t| && n <= |p|
    requires forall k | 0 <= k < n :: SameChar(t[k], p[k])
    requires Matches(t[n..], p[n..])
    ensures Matches(t[i..], p[i..])
    decreases n - i
  {
    if i < n {
      LiteralMatches(t, p, n, i + 1);
      StepSound(t, p, i, i);
    }
  }

  function Underscores(n: nat): (s: string)
    ensures |s| == n && forall k | 0 <= k < n :: s[k] == '_'
  {
    seq(n, _ => '_')
  }

  lemma {:induction false} UnderscoresMatch(t: string)
    ensures Matches(t, Underscores(|t|))
  {
    if t != [] {
      UnderscoresMatch(t[1..]);
      assert Underscores(|t|)[1..] == Underscores(|t[1..]|);
    }
  }

  lemma FirstPercent(s: string) returns (i: nat)
    requires '%' in s
    ensures i < |s| && s[i] == '%'
    ensures forall k | 0 <= k < i :: s[k] != '%'
  {
    i := 0;
    while s[i] != '%'
      invariant i < |s| && '%' in s
      invariant forall k | 0 <= k < i :: s[k] != '%'
      decreases |s| - i
    {
      i := i + 1;
    }
  }

  lemma LastPercent(s: string) returns (i: nat)
    requires '%' in s
    ensures i < |s| && s[i] == '%'
    ensures forall k | i < k < |s| :: s[k] != '%'
  {
    var j := |s|;
    while s[j - 1] != '%'
      invariant 0 < j <= |s| && '%' in s
      invariant forall k | j <= k < |s| :: s[k] != '%'
      decreases j
    {
      j := j - 1;
    }
    i := j - 1;
  }

  /** For a text holding a `%`, a pattern on which the matcher misses a match. */
  lemma SpoilingPattern(t: string) returns (p: string)
    requires '%' in t
    ensures Matches(t, p) && !Answer(t, p)
  {
    var i := FirstPercent(t);
    var tail := t[i..];
    p := t[..i] + "%" + Underscores(|tail|);
    // LIKE: the `%` stands for nothing, the underscores for the rest.
    UnderscoresMatch(tail);
    assert p[i..][1..] == Underscores(|tail|) && t[i..][0..] == tail;
    LiteralMatches(t, p, i, 0);
    assert t[0..] == t && p[0..] == p;
    // The matcher: `%` is taken as the character `%`, and one underscore is left over.
    assert forall k | 0 <= k < |t| :: SameChar(t[k], p[k]);
    LiteralRun(t, p, |t|, 0);
    assert p[|t|] == '_';
  }

  /** For a pattern holding a `%`, a text on which the matcher misses a match. */
  lemma SpoilingText(p: string) returns (t: string)
    requires '%' in p
    ensures Matches(t, p) && !Answer(t, p)
  {
    var i := LastPercent(p);
    var tail := p[i + 1..];
    t := p[..i + 1] + "x" + tail;
    // LIKE: the last `%` stands for "%x", everything else for itself.
    LiteralMatches(tail, tail, |tail|, 0);
    assert tail[|tail|..] == "" && tail[0..] == tail;
    assert t[i..][2..] == tail && p[i..][1..] == tail;
    assert Matches(t[i..], p[i..]);
    LiteralMatches(t, p, i, 0);
    assert t[0..] == t && p[0..] == p;
    // The matcher: every `%` so far was taken as a character, so there is nothing to go back to.
    assert forall k | 0 <= k < i + 1 :: t[k] == p[k];
    LiteralRun(t, p, i + 1, 0);
    NoStarFails(t, p, i + 1);
  }

  /** Without a `%` ahead or behind, a text longer than the pattern is rejected. */
  lemma {:induction false} NoStarFails(t: string, p: string, i: nat)
    requires i <= |p| < |t|
    requires forall k | i <= k < |p| :: p[k] != '%'
    ensures !Run(t, p, i, i, None, 0)
    decreases |p| - i
  {
    if i < |p| && SameChar(t[i], p[i]) {
      NoStarFails(t, p, i + 1);
    }
  }
}
