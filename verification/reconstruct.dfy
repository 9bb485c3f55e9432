/** The reconstructor: renders a token tree back to regex source text. It
    fails on a node of unknown type and on a ROOT or GROUP that has neither
    `options` nor `stack`; every other node has a fixed rendering. */
module Reconstruct {
  import opened Wrappers
  import opened Text
  import opened Tokens
  import opened SetWriter
  import Sets

  datatype ReconstructError =
    | MissingBody          // "options or stack must be Root or Group token"
    | InvalidType(tag: int) // "Invalid token type"

  /** The characters escaped outside a class: `[ \ { } $ ^ . | ? * + ( )`.
      `]` and `-` are not among them. */
  predicate IsMeta(c: int) {
    c == 91 || c == 92 || c == 123 || c == 125 || c == 36 || c == 94 || c == 46
    || c == 124 || c == 63 || c == 42 || c == 43 || c == 40 || c == 41
  }

  /** A CHAR outside a class: backslash-escaped exactly when it is a
      metacharacter. */
  function EscapeChar(c: int): (r: Text)
    ensures IsMeta(c) ==> r == [Backslash, c]
    ensures !IsMeta(c) ==> r == [c]
  {
    (if IsMeta(c) then [Backslash] else []) + [c]
  }

  /** What kind of group a GROUP renders as, by the priority the
      reconstructor applies: a name wins over `remember`, which wins over
      the lookahead flags. */
  datatype GroupKind =
    | Named(name: Text)
    | Capturing
    | Lookahead
    | NegativeLookahead
    | NonCapturing

  function KindOf(name: string, remember: bool, followedBy: bool, notFollowedBy: bool): GroupKind
  {
    if name != "" then Named(Lit(name))
    else if remember then Capturing
    else if followedBy then Lookahead
    else if notFollowedBy then NegativeLookahead
    else NonCapturing
  }

  /** The text between `(` and the group's content. */
  function GroupPrefix(kind: GroupKind): Text
  {
    match kind
    case Named(n) => Lit("?<") + n + Lit(">")
    case Capturing => []
    case Lookahead => Lit("?=")
    case NegativeLookahead => Lit("?!")
    case NonCapturing => Lit("?:")
  }

  /** The quantifier suffix of a REPETITION, chosen by the first matching
      rule: `?`, `+`, `*`, `{m,}`, `{m}`, `{min,max}`. */
  function Suffix(min: int, max: Bound): Text
  {
    if min == 0 && max == Finite(1) then Lit("?")
    else if min == 1 && max == Infinity then Lit("+")
    else if min == 0 && max == Infinity then Lit("*")
    else if max == Infinity then [123] + Decimal(min) + Lit(",}")
    else if max == Finite(min) then [123] + Decimal(min) + [125]
    else [123] + Decimal(min) + [44] + Decimal(max.n) + [125]
  }

  // ---------------------------------------------------------------------
  // When reconstruction succeeds

  predicate Renderable(t: Token)
    decreases t
  {
    match t
    case Root(b) => RenderableBody(b)
    case Group(b, _, _, _, _) => RenderableBody(b)
    case Repetition(c, _, _) => Renderable(c)
    case Unknown(_) => false
    case _ => true
  }

  predicate RenderableBody(b: Body)
    decreases b
  {
    match b
    case Options(opts) => forall i :: 0 <= i < |opts| ==> RenderableStack(opts[i].stack)
    case Stack(ts) => RenderableStack(ts)
    case NoBody => false
  }

  predicate RenderableStack(ts: seq<Token>)
    decreases ts
  {
    forall i :: 0 <= i < |ts| ==> Renderable(ts[i])
  }

  // ---------------------------------------------------------------------
  // reconstruct, createAlternate, reduceStack

  /** `reconstruct`: succeeds exactly on trees without an unknown node and
      without a ROOT or GROUP lacking both `options` and `stack`. */
  function Reconstruct(t: Token): (r: Result<Text, ReconstructError>)
    ensures r.Ok? <==> Renderable(t)
    decreases t
  {
    match t
    case Root(b) => Alternate(b)
    case Char(c) => Ok(EscapeChar(c))
    case Position(m) =>
      if m == "^" || m == "$" then Ok(Lit(m)) else Ok([Backslash] + Lit(m))
    case Reference(n) => Ok([Backslash] + Decimal(n))
    case Set(items, negated) => Ok(WriteSetTokens(items, negated, false))
    case Group(b, remember, name, followedBy, notFollowedBy) =>
      var content :- Alternate(b);
      Ok([40] + GroupPrefix(KindOf(name, remember, followedBy, notFollowedBy)) + content + [41])
    case Repetition(c, min, max) =>
      var inner :- Reconstruct(c);
      Ok(inner + Suffix(min, max))
    case Range(f, to) => Ok(SetChar(f) + [Hyphen] + SetChar(to))
    case Unknown(tag) => Err(InvalidType(tag))
  }

  /** `createAlternate`: the options joined by `|`, or the stack. */
  function Alternate(b: Body): (r: Result<Text, ReconstructError>)
    ensures r.Ok? <==> RenderableBody(b)
    decreases b
  {
    match b
    case Options(opts) => JoinOptions(opts)
    case Stack(ts) => ReduceStack(ts)
    case NoBody => Err(MissingBody)
  }

  /** `options.map(reduceStack).join('|')`. */
  function JoinOptions(opts: seq<Branch>): (r: Result<Text, ReconstructError>)
    ensures r.Ok? <==> forall i :: 0 <= i < |opts| ==> RenderableStack(opts[i].stack)
    decreases opts
  {
    if opts == [] then Ok([])
    else
      var first :- ReduceStack(opts[0].stack);
      if |opts| == 1 then Ok(first)
      else
        var rest :- JoinOptions(opts[1..]);
        Ok(first + [Pipe] + rest)
  }

  /** `reduceStack`: the reconstructions of the tokens, concatenated. */
  function ReduceStack(ts: seq<Token>): (r: Result<Text, ReconstructError>)
    ensures r.Ok? <==> RenderableStack(ts)
    decreases ts
  {
    if ts == [] then Ok([])
    else
      var first :- Reconstruct(ts[0]);
      var rest :- ReduceStack(ts[1..]);
      Ok(first + rest)
  }

  // ---------------------------------------------------------------------
  // Readers the renderings are checked against

  /** `x` put in front of the first of the alternatives `alts`. */
  function Prepend(x: Text, alts: seq<Text>): (r: seq<Text>)
    requires |alts| >= 1
    ensures |r| == |alts| && r[0] == x + alts[0] && r[1..] == alts[1..]
  {
    [x + alts[0]] + alts[1..]
  }

  lemma PrependTwice(x: Text, y: Text, alts: seq<Text>)
    requires |alts| >= 1
    ensures Prepend(x, Prepend(y, alts)) == Prepend(x + y, alts)
  {
    assert x + (y + alts[0]) == (x + y) + alts[0];
  }

  lemma PrependNothing(alts: seq<Text>)
    requires |alts| >= 1
    ensures Prepend([], alts) == alts
  {
    assert [] + alts[0] == alts[0];
    assert [alts[0]] + alts[1..] == alts;
  }

  lemma PrependToOnly(x: Text)
    ensures ReadLiterals([]) == Some([[]])
    ensures Prepend(x, [[]]) == [x]
  {
    var r := Prepend(x, [[]]);
    assert |r| == 1 && r[0] == x + [];
    assert x + [] == x;
    assert r == [r[0]];
  }

  lemma PrependToEmpty(x: Text, alts: seq<Text>)
    ensures Prepend(x, [[]] + alts) == [x] + alts
  {
    assert x + [] == x;
    assert ([[]] + alts)[1..] == alts;
  }

  /** Reads literal alternatives: `\` makes the next character literal, an
      unescaped `|` starts a new alternative, anything else is literal. */
  function ReadLiterals(s: Text): (r: Option<seq<Text>>)
    ensures r.Some? ==> |r.value| >= 1
    decreases |s|
  {
    if s == [] then Some([[]])
    else if s[0] == Backslash then
      if |s| < 2 then None
      else match ReadLiterals(s[2..])
        case None => None
        case Some(alts) => Some(Prepend([s[1]], alts))
    else if s[0] == Pipe then
      match ReadLiterals(s[1..])
      case None => None
      case Some(alts) => Some([[]] + alts)
    else
      match ReadLiterals(s[1..])
      case None => None
      case Some(alts) => Some(Prepend([s[0]], alts))
  }

  lemma ReduceStackCons(ts: seq<Token>)
    requires ts != [] && RenderableStack(ts)
    ensures ReduceStack(ts) == Ok(Reconstruct(ts[0]).value + ReduceStack(ts[1..]).value)
  {
    assert Renderable(ts[0]);
    assert RenderableStack(ts[1..]);
  }

  lemma JoinOptionsCons(opts: seq<Branch>)
    requires |opts| >= 2
    requires forall i :: 0 <= i < |opts| ==> RenderableStack(opts[i].stack)
    ensures JoinOptions(opts)
      == Ok(ReduceStack(opts[0].stack).value + [Pipe] + JoinOptions(opts[1..]).value)
  {
    assert RenderableStack(opts[0].stack);
    assert forall i :: 0 <= i < |opts[1..]| ==> RenderableStack(opts[1..][i].stack);
  }

  /** One literal character followed by text `more` reads as that character
      prepended to the first alternative read from `more`. */
  lemma ReadEscapedChar(c: int, more: Text, alts: seq<Text>)
    requires ReadLiterals(more) == Some(alts)
    ensures ReadLiterals(EscapeChar(c) + more) == Some(Prepend([c], alts))
  {
    if IsMeta(c) {
      assert (EscapeChar(c) + more)[2..] == more;
    } else {
      assert (EscapeChar(c) + more)[1..] == more;
    }
  }

  lemma ReadLiteralStack(ts: seq<Token>, rest: Text, alts: seq<Text>)
    requires AllChars(ts)
    requires ReadLiterals(rest) == Some(alts)
    ensures ReduceStack(ts).Ok?
    ensures ReadLiterals(ReduceStack(ts).value + rest) == Some(Prepend(Codes(ts), alts))
  {
    StackEscapes(ts);
    ReadEscaped(Codes(ts), rest, alts);
  }

  /** Each code escaped on its own, in order. */
  function Escaped(codes: seq<int>): Text
  {
    if codes == [] then [] else EscapeChar(codes[0]) + Escaped(codes[1..])
  }

  /** A stack of CHARs reconstructs to its codes escaped one by one. */
  lemma {:induction false} StackEscapes(ts: seq<Token>)
    requires AllChars(ts)
    ensures ReduceStack(ts) == Ok(Escaped(Codes(ts)))
    decreases |ts|
  {
    if ts != [] {
      assert AllChars(ts[1..]) && RenderableStack(ts);
      StackEscapes(ts[1..]);
      ReduceStackCons(ts);
      assert Codes(ts)[1..] == Codes(ts[1..]);
    }
  }

  /** Escaped codes followed by `rest` read as the codes prepended to the
      first alternative of `rest`. */
  lemma {:induction false} ReadEscaped(codes: seq<int>, rest: Text, alts: seq<Text>)
    requires ReadLiterals(rest) == Some(alts)
    ensures ReadLiterals(Escaped(codes) + rest) == Some(Prepend(codes, alts))
    decreases |codes|
  {
    if codes == [] {
      assert Escaped(codes) + rest == rest;
      PrependNothing(alts);
    } else {
      var c := codes[0];
      ReadEscaped(codes[1..], rest, alts);
      var more := Escaped(codes[1..]) + rest;
      assert Escaped(codes) + rest == EscapeChar(c) + more;
      ReadEscapedChar(c, more, Prepend(codes[1..], alts));
      PrependTwice([c], codes[1..], alts);
      assert [c] + codes[1..] == codes;
    }
  }

  /** The codes of each option's stack. */
  function OptionCodes(opts: seq<Branch>): (r: seq<Text>)
    requires forall i :: 0 <= i < |opts| ==> AllChars(opts[i].stack)
    ensures |r| == |opts|
    ensures forall i :: 0 <= i < |opts| ==> r[i] == Codes(opts[i].stack)
  {
    seq(|opts|, i requires 0 <= i < |opts| => Codes(opts[i].stack))
  }

  lemma ReadLiteralOptions(opts: seq<Branch>)
    requires |opts| >= 1
    requires forall i :: 0 <= i < |opts| ==> AllChars(opts[i].stack)
    ensures JoinOptions(opts).Ok?
    ensures ReadLiterals(JoinOptions(opts).value) == Some(OptionCodes(opts))
  {
    OptionsEscape(opts);
    ReadJoinEscaped(OptionCodes(opts));
  }

  /** Alternatives escaped one by one and joined with `|`. */
  function JoinEscaped(alts: seq<Text>): Text
    requires |alts| >= 1
    decreases |alts|
  {
    if |alts| == 1 then Escaped(alts[0])
    else Escaped(alts[0]) + [Pipe] + JoinEscaped(alts[1..])
  }

  /** Options of CHARs reconstruct to their codes escaped and joined. */
  lemma {:induction false} OptionsEscape(opts: seq<Branch>)
    requires |opts| >= 1
    requires forall i :: 0 <= i < |opts| ==> AllChars(opts[i].stack)
    ensures JoinOptions(opts) == Ok(JoinEscaped(OptionCodes(opts)))
    decreases |opts|
  {
    StackEscapes(opts[0].stack);
    assert OptionCodes(opts)[0] == Codes(opts[0].stack);
    if |opts| > 1 {
      var tail := opts[1..];
      assert forall i :: 0 <= i < |tail| ==> AllChars(tail[i].stack);
      OptionsEscape(tail);
      forall i | 0 <= i < |opts|
        ensures RenderableStack(opts[i].stack)
      {
        StackEscapes(opts[i].stack);
      }
      JoinOptionsCons(opts);
      assert OptionCodes(opts)[1..] == OptionCodes(tail);
    }
  }

  /** Escaped, joined alternatives read back as the same alternatives. */
  lemma {:induction false} ReadJoinEscaped(alts: seq<Text>)
    requires |alts| >= 1
    ensures ReadLiterals(JoinEscaped(alts)) == Some(alts)
    decreases |alts|
  {
    if |alts| == 1 {
      PrependToOnly(alts[0]);
      ReadEscaped(alts[0], [], [[]]);
      assert Escaped(alts[0]) + [] == Escaped(alts[0]);
      assert alts == [alts[0]];
    } else {
      var tail := alts[1..];
      ReadJoinEscaped(tail);
      var r := JoinEscaped(tail);
      assert ReadLiterals([Pipe] + r) == Some([[]] + tail) by {
        assert ([Pipe] + r)[1..] == r;
      }
      ReadEscaped(alts[0], [Pipe] + r, [[]] + tail);
      PrependToEmpty(alts[0], tail);
      assert Escaped(alts[0]) + [Pipe] + r == Escaped(alts[0]) + ([Pipe] + r);
      assert [alts[0]] + tail == alts;
    }
  }

  /** Literal alternatives round-trip: reading the reconstruction of a ROOT
      whose options hold only CHAR tokens gives back every option's codes.
      Every metacharacter, `|` and `\` among them, comes out escaped. */
  lemma LiteralAlternationRoundTrip(opts: seq<Branch>)
    requires |opts| >= 1
    requires forall i :: 0 <= i < |opts| ==> AllChars(opts[i].stack)
    ensures Reconstruct(Root(Options(opts))).Ok?
    ensures ReadLiterals(Reconstruct(Root(Options(opts))).value) == Some(OptionCodes(opts))
  {
    ReadLiteralOptions(opts);
  }

  /** A CHAR stack round-trips the same way as a single alternative. */
  lemma LiteralStackRoundTrip(ts: seq<Token>)
    requires AllChars(ts)
    ensures Reconstruct(Root(Stack(ts))).Ok?
    ensures ReadLiterals(Reconstruct(Root(Stack(ts))).value) == Some([Codes(ts)])
  {
    PrependToOnly(Codes(ts));
    ReadLiteralStack(ts, [], [[]]);
    assert ReduceStack(ts).value + [] == ReduceStack(ts).value;
  }

  /** A stack of CHARs none of which is a metacharacter reconstructs to its codes verbatim. */
  lemma {:induction false} PlainCharsVerbatim(ts: seq<Token>)
    requires AllChars(ts)
    requires forall i :: 0 <= i < |ts| ==> !IsMeta(ts[i].code)
    ensures ReduceStack(ts) == Ok(Codes(ts))
    decreases |ts|
  {
    if ts != [] {
      assert RenderableStack(ts);
      PlainCharsVerbatim(ts[1..]);
      ReduceStackCons(ts);
      assert Codes(ts) == [ts[0].code] + Codes(ts[1..]);
    }
  }

  /** Two options of plain CHARs reconstruct to their codes around a `|`. */
  lemma PlainOptionsJoined(a: seq<Token>, b: seq<Token>)
    requires AllChars(a) && forall i :: 0 <= i < |a| ==> !IsMeta(a[i].code)
    requires AllChars(b) && forall i :: 0 <= i < |b| ==> !IsMeta(b[i].code)
    ensures Reconstruct(Root(Options([Branch(a), Branch(b)]))) == Ok(Codes(a) + [Pipe] + Codes(b))
  {
    var opts := [Branch(a), Branch(b)];
    PlainCharsVerbatim(a);
    PlainCharsVerbatim(b);
    JoinOptionsCons(opts);
    assert opts[1..] == [Branch(b)];
  }

  /** `foo|bar` reconstructs to the text `foo|bar`. */
  lemma FooBarReconstructs()
    ensures Reconstruct(Root(Options([
      Branch([Char(102), Char(111), Char(111)]),
      Branch([Char(98), Char(97), Char(114)])]))) == Ok(Lit("foo|bar"))
  {
    var foo := [Char(102), Char(111), Char(111)];
    var bar := [Char(98), Char(97), Char(114)];
    PlainOptionsJoined(foo, bar);
    assert Codes(foo) == [102, 111, 111];
    assert Codes(bar) == [98, 97, 114];
    assert Lit("foo|bar") == [102, 111, 111] + [Pipe] + [98, 97, 114];
  }

  // ---------------------------------------------------------------------
  // Quantifier suffixes

  /** Reads a quantifier suffix back as its (min, max) bounds. */
  function ReadQuantifier(s: Text): Option<(int, Bound)>
  {
    if s == Lit("?") then Some((0, Finite(1)))
    else if s == Lit("+") then Some((1, Infinity))
    else if s == Lit("*") then Some((0, Infinity))
    else if |s| >= 3 && s[0] == 123 && s[|s| - 1] == 125 then ReadBraceBody(s[1..|s| - 1])
    else None
  }

  /** Reads what lies between the braces of a quantifier: `m`, `m,` or `m,n`. */
  function ReadBraceBody(body: Text): Option<(int, Bound)>
  {
    var k := LeadingDigits(body);
    if k == 0 then None
    else
      var m := DigitsValue(body[..k]);
      if k == |body| then Some((m, Finite(m)))
      else if body[k] != 44 then None
      else
        var tail := body[k + 1..];
        if tail == [] then Some((m, Infinity))
        else if LeadingDigits(tail) == |tail| then Some((m, Finite(DigitsValue(tail))))
        else None
  }

  /** A quantifier in braces is read by its body alone. */
  lemma Braced(body: Text)
    requires |body| >= 1
    ensures ReadQuantifier([123] + body + [125]) == ReadBraceBody(body)
  {
    var s := [123] + body + [125];
    assert s[1..|s| - 1] == body;
    assert s != Lit("?") && s != Lit("+") && s != Lit("*");
  }

  /** The digits of `n` and what follows them split where the digits end. */
  lemma DigitsThen(n: nat, rest: Text)
    requires rest == [] || !IsDigit(rest[0])
    ensures LeadingDigits(Digits(n) + rest) == |Digits(n)|
    ensures (Digits(n) + rest)[..|Digits(n)|] == Digits(n)
    ensures (Digits(n) + rest)[|Digits(n)|..] == rest
  {
    LeadingDigitsOfRun(Digits(n), rest);
  }

  lemma ReadBraceExact(m: nat)
    ensures ReadQuantifier([123] + Decimal(m) + [125]) == Some((m, Finite(m)))
  {
    BodyExact(Digits(m));
    Braced(Digits(m));
    DigitsRoundTrip(m);
  }

  lemma ReadBraceOpen(m: nat)
    ensures ReadQuantifier([123] + Decimal(m) + Lit(",}")) == Some((m, Infinity))
  {
    var body := Digits(m) + [44];
    BodyOpen(Digits(m));
    Braced(body);
    assert [123] + Digits(m) + Lit(",}") == [123] + body + [125];
    DigitsRoundTrip(m);
  }

  lemma ReadBraceBoth(m: nat, n: nat)
    ensures ReadQuantifier([123] + Decimal(m) + [44] + Decimal(n) + [125]) == Some((m, Finite(n)))
  {
    BodyBoth(Digits(m), Digits(n));
    BracedBoth(Digits(m), Digits(n));
    DigitsRoundTrip(m);
    DigitsRoundTrip(n);
  }

  lemma BracedBoth(a: Text, b: Text)
    ensures ReadQuantifier([123] + a + [44] + b + [125]) == ReadBraceBody(a + ([44] + b))
  {
    Braced(a + ([44] + b));
    assert [123] + a + [44] + b + [125] == [123] + (a + ([44] + b)) + [125];
  }

  /** `{m}`: a run of digits alone. */
  lemma BodyExact(a: Text)
    requires |a| >= 1 && forall i :: 0 <= i < |a| ==> IsDigit(a[i])
    ensures ReadBraceBody(a) == Some((DigitsValue(a), Finite(DigitsValue(a))))
  {
    LeadingDigitsOfRun(a, []);
    assert a + [] == a && a[..|a|] == a;
  }

  /** `{m,}`: a run of digits and a comma. */
  lemma BodyOpen(a: Text)
    requires |a| >= 1 && forall i :: 0 <= i < |a| ==> IsDigit(a[i])
    ensures ReadBraceBody(a + [44]) == Some((DigitsValue(a), Infinity))
  {
    var body := a + [44];
    LeadingDigitsOfRun(a, [44]);
    assert body[..|a|] == a && body[|a|] == 44 && body[|a| + 1..] == [];
  }

  /** `{m,n}`: two runs of digits around a comma. */
  lemma BodyBoth(a: Text, b: Text)
    requires |a| >= 1 && forall i :: 0 <= i < |a| ==> IsDigit(a[i])
    requires |b| >= 1 && forall i :: 0 <= i < |b| ==> IsDigit(b[i])
    ensures ReadBraceBody(a + ([44] + b)) == Some((DigitsValue(a), Finite(DigitsValue(b))))
  {
    var body := a + ([44] + b);
    assert LeadingDigits(body) == |a| by {
      LeadingDigitsOfRun(a, [44] + b);
    }
    assert body[..|a|] == a;
    assert |a| < |body| && body[|a|] == 44;
    assert body[|a| + 1..] == b;
    assert LeadingDigits(b) == |b| by {
      LeadingDigitsOfRun(b, []);
      assert b + [] == b;
    }
  }

  /** Every REPETITION with non-negative bounds renders a suffix that reads
      back as exactly its bounds, whichever of the six forms is chosen. */
  lemma QuantifierRoundTrip(min: int, max: Bound)
    requires min >= 0
    requires max.Finite? ==> max.n >= 0
    ensures ReadQuantifier(Suffix(min, max)) == Some((min, max))
  {
    assert Lit("?") == [63] && Lit("+") == [43] && Lit("*") == [42];
    if min == 0 && max == Finite(1) {
    } else if min == 1 && max == Infinity {
    } else if min == 0 && max == Infinity {
    } else if max == Infinity {
      ReadBraceOpen(min);
    } else if max == Finite(min) {
      ReadBraceExact(min);
    } else {
      ReadBraceBoth(min, max.n);
    }
  }

  /** The bounds that have a one-character quantifier: {0,1}, {1,} and {0,}. */
  predicate ShortQuantifier(min: int, max: Bound) {
    (min == 0 && max == Finite(1)) || (min == 1 && max == Infinity) || (min == 0 && max == Infinity)
  }

  /** The quantifier shorthands `?`, `+` and `*` take precedence: the suffix
      is one character exactly for the bounds {0,1}, {1,} and {0,}. Every
      other suffix is a brace form, which leaves out the comma exactly when
      the bounds are equal and ends in `,}` exactly when it is unbounded. */
  lemma SuffixForms(min: int, max: Bound)
    ensures var s := Suffix(min, max);
      && (|s| == 1 <==> ShortQuantifier(min, max))
      && (ShortQuantifier(min, max) ==> s[0] != 123 && !IsDigit(s[0]))
      && (!ShortQuantifier(min, max) ==>
            && |s| >= 3 && s[0] == 123 && s[|s| - 1] == 125
            && ((forall i :: 0 <= i < |s| ==> s[i] != 44) <==> max == Finite(min))
            && (s[|s| - 2] == 44 <==> max == Infinity))
  {
    var d := Decimal(min);
    if ShortQuantifier(min, max) {
      assert Lit("?") == [63] && Lit("+") == [43] && Lit("*") == [42];
    } else if max == Infinity {
      assert Lit(",}") == [44, 125];
      OpenBraceShape(d);
    } else if max == Finite(min) {
      ExactBraceShape(d);
    } else {
      BothBraceShape(d, Decimal(max.n));
    }
  }

  /** A rendered number: digits, possibly after a minus sign, ending in a digit. */
  predicate NumberText(d: Text) {
    && |d| >= 1 && IsDigit(d[|d| - 1])
    && forall i :: 0 <= i < |d| ==> IsDigit(d[i]) || d[i] == Hyphen
  }

  lemma OpenBraceShape(d: Text)
    requires NumberText(d)
    ensures var s := [123] + d + [44, 125];
      |s| >= 3 && s[0] == 123 && s[|s| - 1] == 125 && s[|s| - 2] == 44
  {
  }

  lemma ExactBraceShape(d: Text)
    requires NumberText(d)
    ensures var s := [123] + d + [125];
      && |s| >= 3 && s[0] == 123 && s[|s| - 1] == 125 && s[|s| - 2] != 44
      && forall i :: 0 <= i < |s| ==> s[i] != 44
  {
    var s := [123] + d + [125];
    forall i | 0 <= i < |s|
      ensures s[i] != 44
    {
      if 1 <= i < |s| - 1 {
        assert s[i] == d[i - 1];
      }
    }
  }

  lemma BothBraceShape(d: Text, e: Text)
    requires NumberText(d) && NumberText(e)
    ensures var s := [123] + d + [44] + e + [125];
      && |s| >= 3 && s[0] == 123 && s[|s| - 1] == 125 && s[|s| - 2] != 44
      && s[1 + |d|] == 44
  {
    var s := [123] + d + [44] + e + [125];
    assert s[|s| - 2] == e[|e| - 1];
  }

  /** A REPETITION renders as its child's rendering followed by the suffix,
      and fails exactly when the child fails. */
  lemma RepetitionRendering(c: Token, min: int, max: Bound)
    ensures Reconstruct(Repetition(c, min, max)).Ok? <==> Reconstruct(c).Ok?
    ensures Reconstruct(c).Ok? ==>
      (Reconstruct(Repetition(c, min, max)).value == Reconstruct(c).value + Suffix(min, max))
  {
  }

  /** `\d{4}` reconstructs to `\d{4}`. */
  lemma FourDigitsReconstructs()
    ensures Reconstruct(Repetition(Sets.Ints(), 4, Finite(4))) == Ok(Lit("\\d{4}"))
  {
    DigitTokensWriteShorthand();
    assert Reconstruct(Sets.Ints()) == Ok(Lit("\\d"));
    assert Digits(4) == [52];
    assert Suffix(4, Finite(4)) == [123, 52, 125];
    assert Lit("\\d") == [92, 100];
    assert Reconstruct(Repetition(Sets.Ints(), 4, Finite(4))) == Ok([92, 100] + [123, 52, 125]);
    assert [92, 100] + [123, 52, 125] == [92, 100, 123, 52, 125];
    assert Lit("\\d{4}") == [92, 100, 123, 52, 125];
  }

  // ---------------------------------------------------------------------
  // Groups

  /** The position of the first `c` in `s`. */
  function FirstIndex(s: Text, c: int): (r: Option<nat>)
    ensures r.Some? ==>
      (r.value < |s| && s[r.value] == c && forall i :: 0 <= i < r.value ==> s[i] != c)
    ensures r.None? ==> forall i :: 0 <= i < |s| ==> s[i] != c
    decreases |s|
  {
    if s == [] then None
    else if s[0] == c then Some(0)
    else match FirstIndex(s[1..], c)
      case None => None
      case Some(j) => Some(j + 1)
  }

  /** Reads a parenthesised group back as its kind and its content. */
  function ReadGroup(s: Text): Option<(GroupKind, Text)>
  {
    if |s| < 2 || s[0] != 40 || s[|s| - 1] != 41 then None
    else ReadGroupBody(s[1..|s| - 1])
  }

  /** Reads what lies between a group's parentheses: the prefix that names
      its kind, then its content. */
  function ReadGroupBody(inner: Text): Option<(GroupKind, Text)>
  {
    if inner == [] || inner[0] != 63 then Some((Capturing, inner))
    else if |inner| < 2 then None
    else if inner[1] == 61 then Some((Lookahead, inner[2..]))
    else if inner[1] == 33 then Some((NegativeLookahead, inner[2..]))
    else if inner[1] == 58 then Some((NonCapturing, inner[2..]))
    else if inner[1] == 60 then
      match FirstIndex(inner[2..], 62)
      case None => None
      case Some(j) => Some((Named(inner[2..2 + j]), inner[3 + j..]))
    else None
  }

  /** Every kind of group, with content that does not itself look like a
      prefix, reads back as that kind and that content. */
  lemma ReadGroupOf(kind: GroupKind, content: Text)
    requires kind.Named? ==> forall i :: 0 <= i < |kind.name| ==> kind.name[i] != 62
    requires kind == Capturing ==> content == [] || content[0] != 63
    ensures ReadGroup([40] + GroupPrefix(kind) + content + [41]) == Some((kind, content))
  {
    var inner := GroupPrefix(kind) + content;
    var s := [40] + inner + [41];
    assert [40] + GroupPrefix(kind) + content + [41] == s;
    assert s[0] == 40 && s[|s| - 1] == 41 && s[1..|s| - 1] == inner;
    assert ReadGroupBody(inner) == Some((kind, content)) by {
      ReadGroupBodyOf(kind, content);
    }
  }

  lemma ReadGroupBodyOf(kind: GroupKind, content: Text)
    requires kind.Named? ==> forall i :: 0 <= i < |kind.name| ==> kind.name[i] != 62
    requires kind == Capturing ==> content == [] || content[0] != 63
    ensures ReadGroupBody(GroupPrefix(kind) + content) == Some((kind, content))
  {
    match kind
    case Capturing =>
      assert GroupPrefix(kind) + content == content;
    case Named(n) =>
      ReadNamedGroup(n, content);
    case _ =>
      ReadFlaggedGroup(kind, content);
  }

  lemma ReadFlaggedGroup(kind: GroupKind, content: Text)
    requires kind == Lookahead || kind == NegativeLookahead || kind == NonCapturing
    ensures ReadGroupBody(GroupPrefix(kind) + content) == Some((kind, content))
  {
    var inner := GroupPrefix(kind) + content;
    assert |GroupPrefix(kind)| == 2 && GroupPrefix(kind)[0] == 63;
    assert inner[2..] == content;
  }

  lemma ReadNamedGroup(n: Text, content: Text)
    requires forall i :: 0 <= i < |n| ==> n[i] != 62
    ensures ReadGroupBody(GroupPrefix(Named(n)) + content) == Some((Named(n), content))
  {
    var inner := GroupPrefix(Named(n)) + content;
    var after := n + ([62] + content);
    assert inner == [63, 60] + after;
    assert inner[2..] == after;
    FirstIndexAfter(n, content);
    assert inner[2..2 + |n|] == n;
    assert inner[3 + |n|..] == content;
  }

  lemma {:induction false} FirstIndexAfter(n: Text, content: Text)
    requires forall i :: 0 <= i < |n| ==> n[i] != 62
    ensures FirstIndex(n + ([62] + content), 62) == Some(|n|)
    decreases |n|
  {
    if n != [] {
      assert (n + ([62] + content))[1..] == n[1..] + ([62] + content);
      FirstIndexAfter(n[1..], content);
    }
  }

  /** A GROUP reads back as the kind its flags select, by priority name,
      then `remember`, then `followedBy`, then `notFollowedBy`, around the
      reconstruction of its body. */
  lemma GroupRoundTrip(b: Body, remember: bool, name: string, followedBy: bool, notFollowedBy: bool)
    requires RenderableBody(b)
    requires forall i :: 0 <= i < |name| ==> name[i] != '>'
    requires KindOf(name, remember, followedBy, notFollowedBy) == Capturing ==>
      Alternate(b).value == [] || Alternate(b).value[0] != 63
    ensures Reconstruct(Group(b, remember, name, followedBy, notFollowedBy)).Ok?
    ensures ReadGroup(Reconstruct(Group(b, remember, name, followedBy, notFollowedBy)).value)
      == Some((KindOf(name, remember, followedBy, notFollowedBy), Alternate(b).value))
  {
    ReadGroupOf(KindOf(name, remember, followedBy, notFollowedBy), Alternate(b).value);
  }

  /** The kind a GROUP renders as: a non-empty name always wins; otherwise
      `remember`; then the lookahead flags; otherwise a non-capturing group. */
  lemma GroupKindPriority(name: string, remember: bool, followedBy: bool, notFollowedBy: bool)
    ensures KindOf(name, remember, followedBy, notFollowedBy).Named? <==> name != ""
    ensures KindOf(name, remember, followedBy, notFollowedBy) == Capturing <==> name == "" && remember
    ensures KindOf(name, remember, followedBy, notFollowedBy) == Lookahead
      <==> name == "" && !remember && followedBy
    ensures KindOf(name, remember, followedBy, notFollowedBy) == NegativeLookahead
      <==> name == "" && !remember && !followedBy && notFollowedBy
    ensures KindOf(name, remember, followedBy, notFollowedBy) == NonCapturing
      <==> name == "" && !remember && !followedBy && !notFollowedBy
  {
  }

  // ---------------------------------------------------------------------
  // References, positions, ranges

  /** Reads `\n` back as the group number `n`. */
  function ReadReference(s: Text): Option<int>
  {
    if |s| >= 2 && s[0] == Backslash && LeadingDigits(s[1..]) == |s| - 1 then Some(DigitsValue(s[1..]))
    else None
  }

  lemma ReferenceRoundTrip(n: int)
    requires n >= 0
    ensures Reconstruct(Reference(n)).Ok?
    ensures ReadReference(Reconstruct(Reference(n)).value) == Some(n)
  {
    var s := [Backslash] + Digits(n);
    assert s[1..] == Digits(n);
    DigitsThen(n, []);
    assert Digits(n) + [] == Digits(n);
    DigitsRoundTrip(n);
  }

  /** A POSITION is written bare exactly for `^` and `$`; any other marker
      gets a backslash, and dropping that backslash gives the marker back. */
  lemma PositionRendering(m: string)
    ensures Reconstruct(Position(m)).Ok?
    ensures Reconstruct(Position(m)).value == Lit(m) <==> m == "^" || m == "$"
    ensures !(m == "^" || m == "$") ==> Reconstruct(Position(m)).value == [Backslash] + Lit(m)
  {
    if !(m == "^" || m == "$") {
      assert |Reconstruct(Position(m)).value| == |Lit(m)| + 1;
    }
  }

  /** A RANGE outside a class renders as class text that reads back as that
      one range. */
  lemma RangeRoundTrip(f: int, t: int)
    ensures Reconstruct(Range(f, t)).Ok?
    ensures ReadItems(Reconstruct(Range(f, t)).value) == Some([ItemRange(f, t)])
  {
    ReadRangeThen(f, t, [], []);
    assert SetChar(f) + [Hyphen] + SetChar(t) + [] == SetChar(f) + [Hyphen] + SetChar(t);
    assert [ItemRange(f, t)] + [] == [ItemRange(f, t)];
  }

  /** A SET outside a class renders as text the class reader maps back to
      a set with the same polarity and the same elements, up to order. */
  lemma SetTokenRoundTrip(items: seq<SetItem>, negated: bool)
    requires AllFlat(items)
    ensures Reconstruct(Set(items, negated)).Ok?
    ensures var r := ReadSet(Reconstruct(Set(items, negated)).value);
      && r.Some? && r.value.1 == negated
      && AllFlat(r.value.0) && multiset(Sets.Keys(r.value.0)) == multiset(Sets.Keys(items))
  {
    WriteSetRoundTrip(items, negated);
  }
}
