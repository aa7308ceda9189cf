/**
 `$N` substitution in a WHERE text: each placeholder outside quotes becomes one string literal. The
 property is about how the result reads: as the input's tokens, with each placeholder replaced.
 */
module Params {
  import opened Basics

  /** `Quoted` keeps its text as written, quotes included; a placeholder takes the longest digit run. */
  datatype Token = Plain(c: char) | Quoted(raw: string) | Placeholder(digits: string)

  type Bindings = map<string, string>

  predicate IsDigit(c: char) {
    '0' <= c <= '9'
  }

  /** The end of the literal whose inside is being read at `i`; a doubled quote stays inside. */
  function QuotedEnd(s: string, i: nat): (end: nat)
    requires i <= |s|
    ensures i <= end <= |s|
    decreases |s| - i
  {
    if i == |s| then i
    else if s[i] == '\'' then
      if i + 1 < |s| && s[i + 1] == '\'' then QuotedEnd(s, i + 2) else i + 1
    else QuotedEnd(s, i + 1)
  }

  function DigitsEnd(s: string, i: nat): (end: nat)
    requires i <= |s|
    ensures i <= end <= |s|
    ensures forall k | i <= k < end :: IsDigit(s[k])
    ensures end < |s| ==> !IsDigit(s[end])
    decreases |s| - i
  {
    if i < |s| && IsDigit(s[i]) then DigitsEnd(s, i + 1) else i
  }

  predicate StartsPlaceholder(s: string) {
    |s| > 1 && s[0] == '$' && IsDigit(s[1])
  }

  /** The first token of a text and how much of the text it takes. */
  function FirstToken(s: string): (r: (Token, nat))
    requires s != []
    ensures 0 < r.1 <= |s|
  {
    if s[0] == '\'' then var n := QuotedEnd(s, 1); (Quoted(s[..n]), n)
    else if StartsPlaceholder(s) then var n := DigitsEnd(s, 1); (Placeholder(s[1..n]), n)
    else (Plain(s[0]), 1)
  }

  function Tokens(s: string): seq<Token>
    decreases |s|
  {
    if s == [] then []
    else
      var (token, n) := FirstToken(s);
      [token] + Tokens(s[n..])
  }

  lemma {:induction false} DigitsRun(s: string, i: nat, end: nat)
    requires i <= end <= |s|
    requires forall k | i <= k < end :: '0' <= s[k] <= '9'
    requires end < |s| ==> s[end] < '0' || '9' < s[end]
    ensures DigitsEnd(s, i) == end
    decreases end - i
  {
    if i < end {
      DigitsRun(s, i + 1, end);
    }
  }

  /** A dollar sign and the longest run of digits after it are a placeholder; without a digit after it, a
      dollar sign stands for itself. */
  lemma PlaceholderReads(digits: string, rest: string)
    requires forall c | c in digits :: '0' <= c <= '9'
    requires rest != [] ==> rest[0] < '0' || '9' < rest[0]
    ensures Tokens(['$'] + digits + rest)
            == [if digits != [] then Placeholder(digits) else Plain('$')] + Tokens(rest)
  {
    var s := ['$'] + digits + rest;
    assert s[|digits| + 1..] == rest && s[1..|digits| + 1] == digits;
    forall k | 1 <= k < |digits| + 1
      ensures '0' <= s[k] <= '9'
    {
      assert s[k] == digits[k - 1] && digits[k - 1] in digits;
    }
    if digits != [] {
      DigitsRun(s, 1, |digits| + 1);
    }
  }

  /** The value with every quote doubled. */
  function Doubled(v: string): string {
    if v == [] then [] else DoubledChar(v[0]) + Doubled(v[1..])
  }

  function DoubledChar(c: char): string {
    if c == '\'' then ['\'', '\''] else [c]
  }

  function Literal(v: string): string {
    ['\''] + Doubled(v) + ['\'']
  }

  /** What a string literal stands for. */
  function Unescape(raw: string): string
    requires |raw| >= 2
  {
    Halved(raw[1..|raw| - 1])
  }

  function Halved(s: string): string {
    if s == [] then []
    else if s[0] == '\'' && |s| > 1 && s[1] == '\'' then ['\''] + Halved(s[2..])
    else [s[0]] + Halved(s[1..])
  }

  function TokenText(t: Token, params: Bindings): Result<string, string> {
    match t
    case Plain(c) => Ok([c])
    case Quoted(raw) => Ok(raw)
    case Placeholder(digits) => if digits in params then Ok(Literal(params[digits])) else Err(digits)
  }

  /** The text of the tokens, or the first placeholder that is not bound. */
  function Emit(tokens: seq<Token>, params: Bindings): Result<string, string> {
    if tokens == [] then Ok([]) else Then(TokenText(tokens[0], params), Emit(tokens[1..], params))
  }

  /** Prefixing text to a successful result. */
  function Prefixed(out: string, r: Result<string, string>): Result<string, string> {
    match r
    case Err(e) => Err(e)
    case Ok(rest) => Ok(out + rest)
  }

  /** One result after another; the first error wins. */
  function Then(first: Result<string, string>, rest: Result<string, string>): Result<string, string> {
    match first
    case Err(e) => Err(e)
    case Ok(text) => Prefixed(text, rest)
  }

  /** The rest of the scan from inside a literal. */
  function ScanQuoted(s: string, params: Bindings): Result<string, string> {
    var n := QuotedEnd(s, 0);
    Prefixed(s[..n], Emit(Tokens(s[n..]), params))
  }

  /** The scan from `i`, in either mode. */
  function Scan(s: string, i: nat, inQuote: bool, params: Bindings): Result<string, string>
    requires i <= |s|
  {
    if inQuote then ScanQuoted(s[i..], params) else Emit(Tokens(s[i..]), params)
  }

  lemma {:induction false} QuotedEndShift(s: string, i: nat, j: nat)
    requires i <= j <= |s|
    ensures QuotedEnd(s, j) == i + QuotedEnd(s[i..], j - i)
    decreases |s| - j
  {
    if j < |s| {
      assert s[i..][j - i] == s[j];
      if s[j] == '\'' && j + 1 < |s| && s[j + 1] == '\'' {
        assert s[i..][j + 1 - i] == s[j + 1];
        QuotedEndShift(s, i, j + 2);
      } else if s[j] != '\'' {
        QuotedEndShift(s, i, j + 1);
      } else if j + 1 < |s| {
        assert s[i..][j + 1 - i] == s[j + 1];
      }
    }
  }

  lemma PrefixedTwice(a: string, b: string, r: Result<string, string>)
    ensures Prefixed(a, Prefixed(b, r)) == Prefixed(a + b, r)
  {
    if r.Ok? {
      assert a + (b + r.value) == (a + b) + r.value;
    }
  }

  lemma Cut(s: string, k: nat, n: nat)
    requires k <= n <= |s|
    ensures s[..n] == s[..k] + s[k..][..n - k] && s[n..] == s[k..][n - k..]
  {
  }

  /** A cut-off start of a literal, put back. */
  lemma QuotedFrom(s: string, k: nat, n: nat, params: Bindings)
    requires k <= n <= |s| && QuotedEnd(s, 0) == n && QuotedEnd(s[k..], 0) == n - k
    ensures ScanQuoted(s, params) == Prefixed(s[..k], ScanQuoted(s[k..], params))
  {
    Cut(s, k, n);
    PrefixedTwice(s[..k], s[k..][..n - k], Emit(Tokens(s[n..]), params));
  }

  lemma EmitHead(token: Token, rest: seq<Token>, params: Bindings)
    ensures Emit([token] + rest, params) == Then(TokenText(token, params), Emit(rest, params))
  {
    assert ([token] + rest)[0] == token && ([token] + rest)[1..] == rest;
  }

  /** A placeholder or a plain character. */
  lemma UnquotedStep(s: string, params: Bindings)
    requires s != [] && s[0] != '\''
    ensures var first := FirstToken(s);
            Emit(Tokens(s), params) == Then(TokenText(first.0, params), Emit(Tokens(s[first.1..]), params))
  {
    var (token, n) := FirstToken(s);
    EmitHead(token, Tokens(s[n..]), params);
  }

  /** A literal's opening quote. */
  lemma OpeningStep(s: string, params: Bindings)
    requires s != [] && s[0] == '\''
    ensures Emit(Tokens(s), params) == Prefixed(['\''], ScanQuoted(s[1..], params))
  {
    var n := QuotedEnd(s, 1);
    var tail := s[1..];
    EmitHead(Quoted(s[..n]), Tokens(s[n..]), params);
    QuotedEndShift(s, 1, 1);
    assert s[..n] == ['\''] + tail[..n - 1];
    assert s[n..] == tail[n - 1..];
    PrefixedTwice(['\''], tail[..n - 1], Emit(Tokens(s[n..]), params));
  }

  /** The whole result, as far as it is known at `i` with `out` written. */
  function At(s: string, i: nat, inQuote: bool, out: string, params: Bindings): Result<string, string>
    requires i <= |s|
  {
    Prefixed(out, Scan(s, i, inQuote, params))
  }

  lemma AtQuoted(s: string, i: nat, k: nat, out: string, params: Bindings)
    requires i <= k <= |s| && QuotedEnd(s[i..], 0) == QuotedEnd(s[i..], k - i)
    ensures At(s, i, true, out, params) == At(s, k, true, out + s[i..k], params)
  {
    QuotedEndShift(s[i..], k - i, k - i);
    QuotedFrom(s[i..], k - i, QuotedEnd(s[i..], 0), params);
    assert s[i..][..k - i] == s[i..k] && s[i..][k - i..] == s[k..];
    PrefixedTwice(out, s[i..k], ScanQuoted(s[k..], params));
  }

  lemma AtClosing(s: string, i: nat, out: string, params: Bindings)
    requires i < |s| && s[i] == '\'' && !(i + 1 < |s| && s[i + 1] == '\'')
    ensures At(s, i, true, out, params) == At(s, i + 1, false, out + [s[i]], params)
  {
    var rest := s[i..];
    assert rest[0] == s[i] && (|rest| > 1 ==> rest[1] == s[i + 1]);
    assert QuotedEnd(rest, 0) == 1 && rest[..1] == [s[i]] && rest[1..] == s[i + 1..];
    PrefixedTwice(out, [s[i]], Emit(Tokens(s[i + 1..]), params));
  }

  lemma AtOpening(s: string, i: nat, out: string, params: Bindings)
    requires i < |s| && s[i] == '\''
    ensures At(s, i, false, out, params) == At(s, i + 1, true, out + [s[i]], params)
  {
    OpeningStep(s[i..], params);
    assert s[i..][1..] == s[i + 1..];
    PrefixedTwice(out, [s[i]], ScanQuoted(s[i + 1..], params));
  }

  lemma AtToken(s: string, i: nat, j: nat, out: string, params: Bindings)
    requires i < j <= |s| && s[i] != '\'' && FirstToken(s[i..]).1 == j - i
    ensures var text := TokenText(FirstToken(s[i..]).0, params);
            At(s, i, false, out, params) ==
            (if text.Err? then Err(text.error) else At(s, j, false, out + text.value, params))
  {
    var text := TokenText(FirstToken(s[i..]).0, params);
    UnquotedStep(s[i..], params);
    assert s[i..][j - i..] == s[j..];
    if text.Ok? {
      PrefixedTwice(out, text.value, Emit(Tokens(s[j..]), params));
    }
  }

  lemma PlaceholderIn(s: string, i: nat, j: nat)
    requires i + 1 < |s| && s[i] == '$' && IsDigit(s[i + 1]) && j == DigitsEnd(s, i + 1)
    ensures i < j <= |s| && FirstToken(s[i..]) == (Placeholder(s[i + 1..j]), j - i)
  {
    DigitsEndShift(s, i, i + 1);
    assert s[i..][1] == s[i + 1] && s[i..][1..j - i] == s[i + 1..j];
  }

  lemma AtInside(s: string, i: nat, out: string, params: Bindings)
    requires i < |s| && s[i] != '\''
    ensures At(s, i, true, out, params) == At(s, i + 1, true, out + [s[i]], params)
  {
    assert s[i..][0] == s[i] && s[i..i + 1] == [s[i]];
    AtQuoted(s, i, i + 1, out, params);
  }

  lemma AtEscape(s: string, i: nat, out: string, params: Bindings)
    requires i + 1 < |s| && s[i] == '\'' && s[i + 1] == '\''
    ensures At(s, i, true, out, params) == At(s, i + 2, true, out + ['\''] + ['\''], params)
  {
    assert s[i..][0] == s[i] && s[i..][1] == s[i + 1] && s[i..i + 2] == ['\'', '\''];
    AtQuoted(s, i, i + 2, out, params);
    assert out + ['\'', '\''] == out + ['\''] + ['\''];
  }

  lemma AtPlain(s: string, i: nat, out: string, params: Bindings)
    requires i < |s| && s[i] != '\'' && !(s[i] == '$' && i + 1 < |s| && IsDigit(s[i + 1]))
    ensures At(s, i, false, out, params) == At(s, i + 1, false, out + [s[i]], params)
  {
    assert s[i..][0] == s[i] && (i + 1 < |s| ==> s[i..][1] == s[i + 1]);
    AtToken(s, i, i + 1, out, params);
  }

  lemma AtEnd(s: string, inQuote: bool, out: string, params: Bindings)
    ensures At(s, |s|, inQuote, out, params) == Ok(out)
  {
    assert s[|s|..] == [] && out + [] == out;
    var nothing: string := [];
    assert nothing[..0] == nothing && nothing + nothing == nothing && QuotedEnd(nothing, 0) == 0;
    assert Scan(s, |s|, inQuote, params) == Ok([]);
  }

  lemma AtStart(s: string, params: Bindings)
    ensures At(s, 0, false, [], params) == Emit(Tokens(s), params)
  {
    var all := Emit(Tokens(s), params);
    assert s[0..] == s && (all.Ok? ==> [] + all.value == all.value);
  }

  lemma {:induction false} DigitsEndShift(s: string, i: nat, j: nat)
    requires i <= j <= |s|
    ensures DigitsEnd(s, j) == i + DigitsEnd(s[i..], j - i)
    decreases |s| - j
  {
    if j < |s| && IsDigit(s[j]) {
      DigitsEndShift(s, i, j + 1);
    }
  }

  method QuoteValue(v: string) returns (literal: string)
    ensures literal == Literal(v)
  {
    literal := ['\''];
    var k := 0;
    assert v[0..] == v;
    while k < |v|
      invariant k <= |v|
      invariant literal + Doubled(v[k..]) == ['\''] + Doubled(v)
    {
      assert v[k..][0] == v[k] && v[k..][1..] == v[k + 1..];
      if v[k] == '\'' {
        literal := literal + ['\''];
      }
      literal := literal + [v[k]];
      k := k + 1;
    }
    assert v[k..] == [] && literal + [] == literal;
    literal := literal + ['\''];
  }

  method Substitute(where_: string, params: Bindings) returns (r: Result<string, string>)
    ensures r == Emit(Tokens(where_), params)
  {
    var out := "";
    var i := 0;
    var inQuote := false;
    ghost var goal := Emit(Tokens(where_), params);
    AtStart(where_, params);
    while i < |where_|
      invariant i <= |where_|
      invariant At(where_, i, inQuote, out, params) == goal
    {
      var c := where_[i];
      if inQuote {
        if c == '\'' {
          if i + 1 < |where_| && where_[i + 1] == '\'' {
            AtEscape(where_, i, out, params);
            out := out + [c];
            out := out + ['\''];
            i := i + 2;
            continue;
          }
          AtClosing(where_, i, out, params);
          inQuote := false;
        } else {
          AtInside(where_, i, out, params);
        }
        out := out + [c];
        i := i + 1;
      } else if c == '\'' {
        AtOpening(where_, i, out, params);
        inQuote := true;
        out := out + [c];
        i := i + 1;
      } else if c == '$' && i + 1 < |where_| && IsDigit(where_[i + 1]) {
        var j := i + 1;
        while j < |where_| && IsDigit(where_[j])
          invariant i + 1 <= j <= |where_| && DigitsEnd(where_, j) == DigitsEnd(where_, i + 1)
        {
          j := j + 1;
        }
        PlaceholderIn(where_, i, j);
        AtToken(where_, i, j, out, params);
        var num := where_[i + 1..j];
        if num !in params {
          return Err(num);
        }
        var literal := QuoteValue(params[num]);
        out := out + literal;
        i := j;
      } else {
        AtPlain(where_, i, out, params);
        out := out + [c];
        i := i + 1;
      }
    }
    AtEnd(where_, inQuote, out, params);
    r := Ok(out);
  }

  // ---- How the result reads -----------------------------------------------------------------------

  predicate Bound(tokens: seq<Token>, params: Bindings) {
    forall t | t in tokens && t.Placeholder? :: t.digits in params
  }

  /** The input's tokens with each placeholder replaced by its literal. */
  function Replaced(tokens: seq<Token>, params: Bindings): (r: seq<Token>)
    requires Bound(tokens, params)
    ensures |r| == |tokens|
    ensures forall i | 0 <= i < |r| ::
              r[i] == if tokens[i].Placeholder? then Quoted(Literal(params[tokens[i].digits])) else tokens[i]
  {
    seq(|tokens|, i requires 0 <= i < |tokens| =>
      if tokens[i].Placeholder? then Quoted(Literal(params[tokens[i].digits])) else tokens[i])
  }

  /** No placeholder stands directly against a literal or another placeholder. */
  ghost predicate NoTouch(tokens: seq<Token>) {
    forall i, j | 0 <= i < j < |tokens| && j == i + 1 :: tokens[i].Plain? || tokens[j].Plain?
  }

  lemma {:induction false} EmitFailsIffUnbound(tokens: seq<Token>, params: Bindings)
    ensures Emit(tokens, params).Ok? <==> Bound(tokens, params)
    ensures Emit(tokens, params).Err? ==>
              Placeholder(Emit(tokens, params).error) in tokens && Emit(tokens, params).error !in params
  {
    if tokens != [] {
      EmitFailsIffUnbound(tokens[1..], params);
      assert forall t | t in tokens :: t == tokens[0] || t in tokens[1..];
      assert tokens[0] in tokens && forall t | t in tokens[1..] :: t in tokens;
    }
  }

  /** A literal's own text is read as one literal, exactly up to its end, if no quote follows it. */
  lemma {:induction false} DoubledReads(v: string, rest: string)
    requires rest == [] || rest[0] != '\''
    ensures QuotedEnd(Doubled(v) + ['\''] + rest, 0) == |Doubled(v)| + 1
  {
    var s := Doubled(v) + ['\''] + rest;
    if v == [] {
      assert s == ['\''] + rest;
    } else {
      var t := Doubled(v[1..]) + ['\''] + rest;
      DoubledReads(v[1..], rest);
      if v[0] == '\'' {
        assert s[2..] == t && s[0] == '\'' && s[1] == '\'';
        QuotedEndShift(s, 2, 2);
      } else {
        assert s[1..] == t && s[0] == v[0];
        QuotedEndShift(s, 1, 1);
      }
    }
  }

  lemma LiteralReads(v: string, rest: string)
    requires rest == [] || rest[0] != '\''
    ensures FirstToken(Literal(v) + rest) == (Quoted(Literal(v)), |Literal(v)|)
  {
    var s := Literal(v) + rest;
    assert s[1..] == Doubled(v) + ['\''] + rest;
    QuotedEndShift(s, 1, 1);
    DoubledReads(v, rest);
    assert s[..|Literal(v)|] == Literal(v);
  }

  /** Followed by a quote, it is read on into what follows. */
  lemma {:induction false} DoubledRunsOn(v: string, rest: string)
    requires rest != [] && rest[0] == '\''
    ensures QuotedEnd(Doubled(v) + ['\''] + rest, 0) > |Doubled(v)| + 1
  {
    var s := Doubled(v) + ['\''] + rest;
    if v == [] {
      assert s[0] == '\'' && s[1] == '\'';
    } else {
      var t := Doubled(v[1..]) + ['\''] + rest;
      DoubledRunsOn(v[1..], rest);
      if v[0] == '\'' {
        assert s[2..] == t && s[0] == '\'' && s[1] == '\'';
        QuotedEndShift(s, 2, 2);
      } else {
        assert s[1..] == t && s[0] == v[0];
        QuotedEndShift(s, 1, 1);
      }
    }
  }

  /** A literal read from a text is read the same in front of any other text that starts with no quote;
      in front of a quote, a terminated one is read further. */
  lemma {:induction false} QuotedInPlace(s: string, i: nat, rest: string)
    requires i <= |s|
    ensures var n := QuotedEnd(s, i); var t := s[..n] + rest;
            && (n < |s| ==> s[n] != '\'')
            && (rest == [] || (n < |s| && rest[0] != '\'') ==> QuotedEnd(t, i) == n)
            && (n < |s| && rest != [] && rest[0] == '\'' ==> QuotedEnd(t, i) > n)
    decreases |s| - i
  {
    var n := QuotedEnd(s, i);
    var t := s[..n] + rest;
    if i < |s| {
      assert t[i] == s[i];
      if s[i] == '\'' && i + 1 < |s| && s[i + 1] == '\'' {
        assert t[i + 1] == s[i + 1];
        QuotedInPlace(s, i + 2, rest);
      } else if s[i] != '\'' {
        QuotedInPlace(s, i + 1, rest);
      }
    }
  }

  lemma {:induction false} DoubledUnescapes(v: string)
    ensures Halved(Doubled(v)) == v
  {
    if v != [] {
      DoubledUnescapes(v[1..]);
      var d := Doubled(v);
      if v[0] == '\'' {
        assert d[2..] == Doubled(v[1..]);
      } else {
        assert d[1..] == Doubled(v[1..]);
      }
    }
  }

  /** The literal a placeholder becomes stands for the bound value. */
  lemma LiteralUnescapes(v: string)
    ensures Unescape(Literal(v)) == v
  {
    DoubledUnescapes(v);
    assert Literal(v)[1..|Literal(v)| - 1] == Doubled(v);
  }

  lemma ReplacedHead(t: Token, rest: seq<Token>, params: Bindings)
    requires Bound([t] + rest, params)
    ensures Bound([t], params) && Bound(rest, params)
    ensures Replaced([t] + rest, params) == Replaced([t], params) + Replaced(rest, params)
  {
    assert t == ([t] + rest)[0];
    assert forall u | u in rest :: u in [t] + rest;
  }

  /** How a text splits at its first token, and how its result does. */
  lemma Split(s: string, params: Bindings)
    requires s != [] && Bound(Tokens(s), params)
    ensures var first := FirstToken(s); var rest := s[first.1..];
            && Tokens(s) == [first.0] + Tokens(rest)
            && Bound([first.0], params) && Bound(Tokens(rest), params)
            && Replaced(Tokens(s), params) == Replaced([first.0], params) + Replaced(Tokens(rest), params)
            && TokenText(first.0, params).Ok? && Emit(Tokens(rest), params).Ok?
            && Emit(Tokens(s), params) == Ok(TokenText(first.0, params).value + Emit(Tokens(rest), params).value)
  {
    var first := FirstToken(s);
    var rest := Tokens(s[first.1..]);
    ReplacedHead(first.0, rest, params);
    assert first.0 in [first.0];
    EmitHead(first.0, rest, params);
    EmitFailsIffUnbound(rest, params);
  }

  /** The result starts with a quote exactly where the text starts with a literal or a placeholder;
      otherwise it starts as the text does. */
  lemma FirstOut(s: string, params: Bindings)
    requires Bound(Tokens(s), params)
    ensures Emit(Tokens(s), params).Ok?
    ensures var out := Emit(Tokens(s), params).value;
            && (s == [] <==> out == [])
            && (s != [] ==> && (out[0] == '\'' <==> !FirstToken(s).0.Plain?)
                            && (FirstToken(s).0.Plain? ==> out[0] == s[0]))
  {
    if s != [] {
      Split(s, params);
    }
  }

  lemma NoTouchHead(t: Token, rest: seq<Token>)
    ensures NoTouch([t] + rest) <==> (rest == [] || t.Plain? || rest[0].Plain?) && NoTouch(rest)
  {
    var all := [t] + rest;
    if NoTouch(all) {
      forall i, j | 0 <= i < j < |rest| && j == i + 1 ensures rest[i].Plain? || rest[j].Plain? {
        assert rest[i] == all[i + 1] && rest[j] == all[j + 1];
      }
      if rest != [] {
        assert all[0] == t && all[1] == rest[0];
      }
    }
    if (rest == [] || t.Plain? || rest[0].Plain?) && NoTouch(rest) {
      forall i, j | 0 <= i < j < |all| && j == i + 1 ensures all[i].Plain? || all[j].Plain? {
        if i > 0 {
          assert all[i] == rest[i - 1] && all[j] == rest[j - 1];
        }
      }
    }
  }

  /** In the result, the first token's own text is read as that token exactly if it does not touch. */
  lemma HeadReads(s: string, params: Bindings)
    requires s != [] && Bound(Tokens(s), params)
    ensures var first := FirstToken(s); var rest := s[first.1..];
            && Bound([first.0], params) && Bound(Tokens(rest), params)
            && Emit(Tokens(s), params).Ok? && Emit(Tokens(s), params).value != []
            && (FirstToken(Emit(Tokens(s), params).value) ==
                (Replaced([first.0], params)[0], |TokenText(first.0, params).value|)
                <==> rest == [] || first.0.Plain? || FirstToken(rest).0.Plain?)
            && (FirstToken(Emit(Tokens(s), params).value).0 == Replaced([first.0], params)[0] ==>
                FirstToken(Emit(Tokens(s), params).value).1 == |TokenText(first.0, params).value|)
  {
    Split(s, params);
    var first := FirstToken(s);
    var rest := s[first.1..];
    FirstOut(rest, params);
    var tail := Emit(Tokens(rest), params).value;
    match first.0
    case Plain(c) => {
      assert ([c] + tail)[0] == c;
      assert tail != [] ==> ([c] + tail)[1] == tail[0];
    }
    case Placeholder(digits) =>
      LiteralHead(params[digits], tail);
    case Quoted(raw) => {
      QuotedInPlace(s, 1, tail);
      assert raw == s[..first.1] && (raw + tail)[0] == '\'';
      assert (raw + tail)[..first.1] == raw;
    }
  }

  lemma LiteralHead(v: string, tail: string)
    ensures var first := FirstToken(Literal(v) + tail);
            && (first == (Quoted(Literal(v)), |Literal(v)|) <==> tail == [] || tail[0] != '\'')
            && (first.0 == Quoted(Literal(v)) ==> first.1 == |Literal(v)|)
  {
    var s := Literal(v) + tail;
    if tail == [] || tail[0] != '\'' {
      LiteralReads(v, tail);
    } else {
      assert s[1..] == Doubled(v) + ['\''] + tail;
      QuotedEndShift(s, 1, 1);
      DoubledRunsOn(v, tail);
    }
  }

  /** The result reads as the input with its placeholders replaced exactly if none of them touches a
      literal or another placeholder. */
  lemma {:induction false} ReadsAsReplacedIff(s: string, params: Bindings)
    requires Bound(Tokens(s), params)
    ensures Emit(Tokens(s), params).Ok?
    ensures Tokens(Emit(Tokens(s), params).value) == Replaced(Tokens(s), params) <==> NoTouch(Tokens(s))
    decreases |s|
  {
    if s != [] {
      Split(s, params);
      HeadReads(s, params);
      var first := FirstToken(s);
      var rest := s[first.1..];
      ReadsAsReplacedIff(rest, params);
      NoTouchHead(first.0, Tokens(rest));
      HeadThenTail(TokenText(first.0, params).value, Emit(Tokens(rest), params).value,
                   Replaced([first.0], params), Replaced(Tokens(rest), params));
    }
  }

  lemma HeadThenTail(text: string, tail: string, token: seq<Token>, rest: seq<Token>)
    requires text + tail != [] && |token| == 1
    requires FirstToken(text + tail).0 == token[0] ==> FirstToken(text + tail).1 == |text|
    ensures Tokens(text + tail) == token + rest <==>
            FirstToken(text + tail) == (token[0], |text|) && Tokens(tail) == rest
  {
    var out := text + tail;
    var first := FirstToken(out);
    assert out[|text|..] == tail;
    assert Tokens(out)[0] == first.0 && Tokens(out)[1..] == Tokens(out[first.1..]);
    assert (token + rest)[0] == token[0] && (token + rest)[1..] == rest;
    assert token == [token[0]];
  }

  lemma Associate(a: string, b: string, c: string)
    ensures a + (b + c) == (a + b) + c
  {
  }

  lemma {:induction false} DoubledConcat(v: string, w: string)
    ensures Doubled(v + w) == Doubled(v) + Doubled(w)
  {
    if v == [] {
      assert v + w == w;
    } else {
      DoubledConcat(v[1..], w);
      assert (v + w)[1..] == v[1..] + w && (v + w)[0] == v[0];
      Associate(DoubledChar(v[0]), Doubled(v[1..]), Doubled(w));
    }
  }

  /** Two literals side by side are one literal, with a quote between the values. */
  lemma TouchingLiteralsMerge(v: string, w: string)
    ensures Literal(v) + Literal(w) == Literal(v + ['\''] + w)
  {
    DoubledConcat(v, ['\'']);
    DoubledConcat(v + ['\''], w);
    assert Doubled(['\'']) == ['\'', '\''];
    Joined(['\''], Doubled(v), Doubled(w));
    assert ['\''] + ['\''] == ['\'', '\''];
  }

  lemma Joined(q: string, a: string, b: string)
    ensures (q + a + q) + (q + b + q) == q + (a + (q + q) + b) + q
  {
  }

  lemma LiteralIsOneToken(v: string)
    ensures Tokens(Literal(v)) == [Quoted(Literal(v))]
  {
    LiteralReads(v, []);
    assert Literal(v) + [] == Literal(v) && Literal(v)[|Literal(v)|..] == [];
  }

  /** `$1$2` is where that happens. */
  lemma TouchingPlaceholders(params: Bindings)
    requires "1" in params && "2" in params
    ensures Tokens("$1$2") == [Placeholder("1"), Placeholder("2")]
    ensures var merged := Literal(params["1"] + ['\''] + params["2"]);
            Emit(Tokens("$1$2"), params) == Ok(merged) && Tokens(merged) == [Quoted(merged)]
  {
    var s := "$1$2";
    assert s[2..] == "$2" && s[1..2] == "1" && "$2"[1..2] == "2" && "$2"[2..] == "";
    assert DigitsEnd(s, 2) == 2 && DigitsEnd("$2", 2) == 2;
    assert FirstToken("$2") == (Placeholder("2"), 2);
    assert Tokens("$2") == [Placeholder("2")] + Tokens("");
    EmitHead(Placeholder("1"), Tokens("$2"), params);
    EmitHead(Placeholder("2"), [], params);
    TouchingLiteralsMerge(params["1"], params["2"]);
    assert Literal(params["2"]) + [] == Literal(params["2"]);
    LiteralIsOneToken(params["1"] + ['\''] + params["2"]);
  }
}
