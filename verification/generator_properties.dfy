/** Properties of the generator: what each node type emits, how draws are
    consumed, and how captures and back-references interact. */
module GeneratorProperties {
  import opened Wrappers
  import opened Text
  import opened Tokens
  import opened RangeSet
  import opened Generator
  import Sets

  // ---------------------------------------------------------------------
  // randInt

  /** Draws 0.25, 0.35 and 0.75 pick indices 0, 1 and 2 out of three. */
  lemma ThreeWayDraws()
    ensures RandInt(0, 2, 0.25) == 0
    ensures RandInt(0, 2, 0.35) == 1
    ensures RandInt(0, 2, 0.75) == 2
  {
  }

  /** Every value between the bounds is reached: the draw (k - a) / (1 + b - a)
      yields exactly `k`. */
  lemma RandIntHits(a: int, b: int, k: int)
    requires a <= k <= b
    ensures var r := (k - a) as real / (1 + b - a) as real;
      0.0 <= r < 1.0 && RandInt(a, b, r) == k
  {
    var w := (1 + b - a) as real;
    var r := (k - a) as real / w;
    assert r * w == (k - a) as real;
  }

  // ---------------------------------------------------------------------
  // Nodes that emit nothing

  /** A POSITION emits nothing and changes nothing; so does a lookahead
      GROUP, whatever its body and `remember` flag: it is neither numbered
      nor expanded. */
  lemma SilentNodes(cfg: Config, m: string, b: Body, remember: bool, name: string,
                    followedBy: bool, notFollowedBy: bool, path: Path, st: State)
    requires ValidConfig(cfg)
    ensures Gen(cfg, Position(m), path, st) == Ok((Str([]), st))
    ensures followedBy || notFollowedBy ==>
      Gen(cfg, Group(b, remember, name, followedBy, notFollowedBy), path, st) == Ok((Str([]), st))
  {
  }

  /** A ROOT or GROUP without a body fails, and so does one with no options
      to choose from; a lookahead is exempt because it is never expanded. */
  lemma MalformedBodies(cfg: Config, remember: bool, name: string, path: Path, st: State)
    requires ValidConfig(cfg)
    ensures Gen(cfg, Root(NoBody), path, st) == Err(Failure(MissingBody, st))
    ensures Gen(cfg, Root(Options([])), path, st) == Err(Failure(NoOption, st.(drawn := st.drawn + 1)))
    ensures Gen(cfg, Group(NoBody, remember, name, false, false), path, st).Err?
    ensures Gen(cfg, Group(NoBody, remember, name, false, false), path, st).error.kind == MissingBody
    ensures Gen(cfg, Group(Options([]), remember, name, false, false), path, st).Err?
    ensures Gen(cfg, Group(Options([]), remember, name, false, false), path, st).error.kind == NoOption
  {
  }

  /** A remembering GROUP is numbered before its body runs, so the number
      survives a throw from the body: a failed run still leaves the group
      numbered, and the draws it took consumed. */
  lemma NumberedBeforeFailure(cfg: Config, b: Body, name: string, path: Path, st: State)
    requires ValidConfig(cfg)
    requires path !in st.numbers
    requires Gen(cfg, Group(b, true, name, false, false), path, st).Err?
    ensures var reached := Gen(cfg, Group(b, true, name, false, false), path, st).error.reached;
      path in reached.numbers && reached.numbers[path] == |st.groups|
  {
    var st1 := st.(groups := st.groups + [None], numbers := st.numbers[path := |st.groups|]);
    assert Gen(cfg, Group(b, true, name, false, false), path, st).error
      == GenBody(cfg, b, path, st1).error;
  }

  /** A REPETITION whose count comes out as zero (or below) never expands
      its child: it emits nothing after its one count draw, so a malformed
      child does not make it fail and no GROUP inside it is numbered. This
      is what happens to `x?` or `x*` when the count draw is low. */
  lemma ZeroRepetitionSkipsChild(cfg: Config, child: Token, min: int, max: Bound, path: Path, st: State)
    requires ValidConfig(cfg)
    requires RandInt(min, Ceiling(cfg, min, max), cfg.random(st.drawn)) <= 0
    ensures Gen(cfg, Repetition(child, min, max), path, st)
      == Ok((Str([]), st.(drawn := st.drawn + 1)))
  {
    var st1 := st.(drawn := st.drawn + 1);
    assert Draw(cfg, st) == (cfg.random(st.drawn), st1);
    assert GenRepeat(cfg, child, path + [0], 0, st1) == Ok(([], st1));
    assert GenRepetitionNode(cfg, child, min, max, path, st) == Ok((Str([]), st1));
    assert Gen(cfg, Repetition(child, min, max), path, st)
      == GenRepetitionNode(cfg, child, min, max, path, st) by {
    }
  }

  /** A RANGE or an unknown node outside a set yields `undefined`, which a
      surrounding stack appends as the text "undefined". */
  lemma UndefinedInStack(cfg: Config, t: Token, path: Path, st: State)
    requires ValidConfig(cfg)
    requires t.Range? || t.Unknown?
    ensures Gen(cfg, t, path + [0], st) == Ok((Undefined, st))
    ensures GenStack(cfg, [t], path, 0, st) == Ok((Lit("undefined"), st))
  {
    assert Lit("undefined") + [] == Lit("undefined");
  }

  // ---------------------------------------------------------------------
  // CHAR

  /** A CHAR emits one character. Without `i` it is the character itself
      and no draw is taken. With `i` one draw is taken, and the character
      comes out in the other case exactly when the draw is below one half;
      characters that are not ASCII letters come out unchanged either way. */
  lemma CharOutput(cfg: Config, c: int, path: Path, st: State)
    requires ValidConfig(cfg)
    ensures var r := Gen(cfg, Char(c), path, st);
      && r.Ok? && r.value.0.Str? && |r.value.0.text| == 1
      && (r.value.0.text[0] == c || r.value.0.text[0] == OtherCase(c))
      && (!IsLower(c) && !IsUpper(c) ==> r.value.0.text[0] == c)
      && (!cfg.ignoreCase ==> r.value == (Str([c]), st))
      && (cfg.ignoreCase ==>
            (&& r.value.1 == st.(drawn := st.drawn + 1)
             && (r.value.0.text[0] == OtherCase(c) <==> cfg.random(st.drawn) < 0.5 || OtherCase(c) == c)))
  {
    OtherCaseInvolution(c);
  }

  // ---------------------------------------------------------------------
  // SET

  /** A SET emits nothing, without a draw, exactly when its expansion is
      empty; otherwise it takes one draw and emits one character the
      pointwise membership definition admits. */
  lemma SetOutput(cfg: Config, items: seq<SetItem>, negated: bool, path: Path, st: State)
    requires ValidConfig(cfg)
    ensures var r := Gen(cfg, Set(items, negated), path, st);
      && r.Ok? && r.value.0.Str?
      && (r.value.0.text == [] <==> Expand(cfg, items, negated) == {})
      && (Expand(cfg, items, negated) == {} ==> r.value.1 == st)
      && (Expand(cfg, items, negated) != {} ==>
            && |r.value.0.text| == 1
            && InSet(cfg, items, negated, r.value.0.text[0])
            && r.value.1 == st.(drawn := st.drawn + 1))
  {
    var chars := Expand(cfg, items, negated);
    if chars != {} {
      var k := RandInt(0, |chars| - 1, cfg.random(st.drawn));
      GenSetDraw(cfg, items, negated, path, st);
      ExpandMembership(cfg, items, negated, Index(chars, k));
    } else {
      assert Gen(cfg, Set(items, negated), path, st) == Ok(GenSetNode(cfg, items, negated, st));
    }
  }

  /** Every character of a SET's expansion can come out: the draw
      k / |expansion|, where k is the character's rank, selects it. */
  lemma SetMemberReachable(cfg: Config, items: seq<SetItem>, negated: bool, path: Path, st: State, x: int)
    requires ValidConfig(cfg)
    requires x in Expand(cfg, items, negated)
    requires cfg.random(st.drawn)
      == |Below(Expand(cfg, items, negated), x)| as real / |Expand(cfg, items, negated)| as real
    ensures Gen(cfg, Set(items, negated), path, st) == Ok((Str([x]), st.(drawn := st.drawn + 1)))
  {
    var chars := Expand(cfg, items, negated);
    IndexOfRank(chars, x);
    var k := |Below(chars, x)|;
    RandIntHits(0, |chars| - 1, k);
    assert (k - 0) as real / (1 + (|chars| - 1) - 0) as real == k as real / |chars| as real;
    GenSetDraw(cfg, items, negated, path, st);
  }

  /** A SET with something to choose from: one draw picks the position in
      the ascending expansion. */
  lemma GenSetDraw(cfg: Config, items: seq<SetItem>, negated: bool, path: Path, st: State)
    requires ValidConfig(cfg) && Expand(cfg, items, negated) != {}
    ensures var chars := Expand(cfg, items, negated);
      var k := RandInt(0, |chars| - 1, cfg.random(st.drawn));
      0 <= k < |chars|
      && Gen(cfg, Set(items, negated), path, st) == Ok((Str([Index(chars, k)]), st.(drawn := st.drawn + 1)))
  {
    assert Draw(cfg, st) == (cfg.random(st.drawn), st.(drawn := st.drawn + 1));
    assert Gen(cfg, Set(items, negated), path, st) == Ok(GenSetNode(cfg, items, negated, st)) by {
    }
  }

  /** Under `i`, a set of one letter yields either case of it. */
  lemma IgnoreCaseLetterSet(cfg: Config, c: int, x: int)
    requires cfg.ignoreCase && (IsLower(c) || IsUpper(c))
    requires c in cfg.range && OtherCase(c) in cfg.range
    ensures x in Expand(cfg, [ItemChar(c)], false) <==> x == c || x == OtherCase(c)
  {
    OtherCaseInvolution(c);
    OtherCaseInvolution(x);
    ExpandMembership(cfg, [ItemChar(c)], false, x);
    assert CoversEither(cfg, [ItemChar(c)][0], x) <==> x == c || x == OtherCase(c);
  }

  // ---------------------------------------------------------------------
  // Stacks of literals and alternation

  /** A stack of CHARs generates its codes verbatim without `i`. */
  lemma {:induction false} LiteralStack(cfg: Config, ts: seq<Token>, path: Path, j: nat, st: State)
    requires ValidConfig(cfg) && !cfg.ignoreCase
    requires AllChars(ts) && j <= |ts|
    ensures GenStack(cfg, ts, path, j, st) == Ok((Codes(ts)[j..], st))
    decreases |ts| - j
  {
    if j < |ts| {
      var c := ts[j].code;
      assert ts[j] == Char(c);
      CharOutput(cfg, c, path + [j], st);
      assert Gen(cfg, ts[j], path + [j], st) == Ok((Str([c]), st));
      LiteralStack(cfg, ts, path, j + 1, st);
      assert Coerce(Str([c])) == [c];
      assert Codes(ts)[j..] == [c] + Codes(ts)[j + 1..];
    }
  }

  /** An alternation of literals takes one draw and emits the option that
      `randInt(0, n - 1)` selects. */
  lemma LiteralAlternation(cfg: Config, opts: seq<Branch>, path: Path, st: State)
    requires ValidConfig(cfg) && !cfg.ignoreCase
    requires |opts| >= 1
    requires forall k :: 0 <= k < |opts| ==> AllChars(opts[k].stack)
    ensures var k := RandInt(0, |opts| - 1, cfg.random(st.drawn));
      && 0 <= k < |opts|
      && Gen(cfg, Root(Options(opts)), path, st)
         == Ok((Str(Codes(opts[k].stack)), st.(drawn := st.drawn + 1)))
  {
    var k := RandInt(0, |opts| - 1, cfg.random(st.drawn));
    LiteralStack(cfg, opts[k].stack, path + [k], 0, st.(drawn := st.drawn + 1));
    assert Codes(opts[k].stack)[0..] == Codes(opts[k].stack);
    GenRootOptions(cfg, opts, path, st);
  }

  /** A ROOT of options: one draw picks the option, whose stack then runs. */
  lemma GenRootOptions(cfg: Config, opts: seq<Branch>, path: Path, st: State)
    requires ValidConfig(cfg) && |opts| >= 1
    ensures var k := RandInt(0, |opts| - 1, cfg.random(st.drawn));
      var r := GenStack(cfg, opts[k].stack, path + [k], 0, st.(drawn := st.drawn + 1));
      0 <= k < |opts| && (r.Ok? ==> Gen(cfg, Root(Options(opts)), path, st) == Ok((Str(r.value.0), r.value.1)))
  {
  }

  /** `foo|bar|baz` emits `foo`, `bar` or `baz` for the draws 0.25, 0.35
      and 0.75. */
  lemma FooBarBaz(cfg: Config, st: State)
    requires ValidConfig(cfg) && !cfg.ignoreCase
    ensures var t := Root(Options([
        Branch([Char(102), Char(111), Char(111)]),
        Branch([Char(98), Char(97), Char(114)]),
        Branch([Char(98), Char(97), Char(122)])]));
      var next := st.(drawn := st.drawn + 1);
      && (cfg.random(st.drawn) == 0.25 ==> Gen(cfg, t, [], st) == Ok((Str(Lit("foo")), next)))
      && (cfg.random(st.drawn) == 0.35 ==> Gen(cfg, t, [], st) == Ok((Str(Lit("bar")), next)))
      && (cfg.random(st.drawn) == 0.75 ==> Gen(cfg, t, [], st) == Ok((Str(Lit("baz")), next)))
  {
    var foo := [Char(102), Char(111), Char(111)];
    var bar := [Char(98), Char(97), Char(114)];
    var baz := [Char(98), Char(97), Char(122)];
    var opts := [Branch(foo), Branch(bar), Branch(baz)];
    LiteralAlternation(cfg, opts, [], st);
    ThreeWayDraws();
    assert Codes(foo) == Lit("foo");
    assert Codes(bar) == Lit("bar");
    assert Codes(baz) == Lit("baz");
  }

  // ---------------------------------------------------------------------
  // REPETITION

  /** A token that always emits exactly one character. */
  predicate SingleChar(cfg: Config, t: Token) {
    t.Char? || (t.Set? && Expand(cfg, t.items, t.negated) != {})
  }

  /** The characters a single-character token may emit. */
  predicate Admits(cfg: Config, t: Token, x: int)
    requires SingleChar(cfg, t)
  {
    if t.Char? then x == t.code || x == OtherCase(t.code)
    else InSet(cfg, t.items, t.negated, x)
  }

  lemma SingleCharOutput(cfg: Config, t: Token, path: Path, st: State)
    requires ValidConfig(cfg) && SingleChar(cfg, t)
    ensures var r := Gen(cfg, t, path, st);
      r.Ok? && r.value.0.Str? && |r.value.0.text| == 1 && Admits(cfg, t, r.value.0.text[0])
  {
    if t.Char? {
      CharOutput(cfg, t.code, path, st);
    } else {
      SetOutput(cfg, t.items, t.negated, path, st);
    }
  }

  /** `n` repetitions of a single-character token emit `n` admitted characters. */
  lemma {:induction false} RepeatSingleChar(cfg: Config, t: Token, path: Path, n: nat, st: State)
    requires ValidConfig(cfg) && SingleChar(cfg, t)
    ensures var r := GenRepeat(cfg, t, path, n, st);
      && r.Ok? && |r.value.0| == n
      && forall i :: 0 <= i < n ==> Admits(cfg, t, r.value.0[i])
    decreases n
  {
    if n > 0 {
      SingleCharOutput(cfg, t, path, st);
      var st1 := Gen(cfg, t, path, st).value.1;
      RepeatSingleChar(cfg, t, path, n - 1, st1);
      var head := Gen(cfg, t, path, st).value.0.text;
      var tail := GenRepeat(cfg, t, path, n - 1, st1).value.0;
      assert GenRepeat(cfg, t, path, n, st).value.0 == head + tail;
      forall i | 0 <= i < n
        ensures Admits(cfg, t, (head + tail)[i])
      {
        if i > 0 {
          assert (head + tail)[i] == tail[i - 1];
        }
      }
    }
  }

  /** A REPETITION of a single-character token emits between `min` and the
      ceiling characters (when the bounds are in order), all admitted, and
      exactly as many as `randInt(min, ceiling)` chooses. */
  lemma RepetitionCount(cfg: Config, t: Token, min: int, max: Bound, path: Path, st: State)
    requires ValidConfig(cfg) && SingleChar(cfg, t)
    ensures var r := Gen(cfg, Repetition(t, min, max), path, st);
      var n := RandInt(min, Ceiling(cfg, min, max), cfg.random(st.drawn));
      && r.Ok? && r.value.0.Str?
      && |r.value.0.text| == (if n > 0 then n else 0)
      && (0 <= min <= Ceiling(cfg, min, max) ==> min <= |r.value.0.text| <= Ceiling(cfg, min, max))
      && forall i :: 0 <= i < |r.value.0.text| ==> Admits(cfg, t, r.value.0.text[i])
  {
    var n := RandInt(min, Ceiling(cfg, min, max), cfg.random(st.drawn));
    RepeatSingleChar(cfg, t, path + [0], if n > 0 then n else 0, st.(drawn := st.drawn + 1));
    GenRepetition(cfg, t, min, max, path, st);
  }

  /** A REPETITION: one draw picks the count, then the child runs that many
      times (none for a count below one). */
  lemma GenRepetition(cfg: Config, c: Token, min: int, max: Bound, path: Path, st: State)
    requires ValidConfig(cfg)
    ensures var n := RandInt(min, Ceiling(cfg, min, max), cfg.random(st.drawn));
      var r := GenRepeat(cfg, c, path + [0], if n > 0 then n else 0, st.(drawn := st.drawn + 1));
      r.Ok? ==> Gen(cfg, Repetition(c, min, max), path, st) == Ok((Str(r.value.0), r.value.1))
  {
    assert Draw(cfg, st) == (cfg.random(st.drawn), st.(drawn := st.drawn + 1));
    assert Gen(cfg, Repetition(c, min, max), path, st) == GenRepetitionNode(cfg, c, min, max, path, st) by {
    }
  }

  /** Under the default configuration an unbounded repetition treats
      infinity as `min + 100`: `x*` of a single-character `x` emits at most
      100 characters. */
  lemma DefaultStarBound(flags: string, random: nat -> real, t: Token, path: Path, st: State)
    requires ValidConfig(DefaultConfig(flags, random))
    requires SingleChar(DefaultConfig(flags, random), t)
    ensures var r := Gen(DefaultConfig(flags, random), Repetition(t, 0, Infinity), path, st);
      r.Ok? && r.value.0.Str? && |r.value.0.text| <= 100
  {
    var cfg := DefaultConfig(flags, random);
    assert Ceiling(cfg, 0, Infinity) == 100;
    RepetitionCount(cfg, t, 0, Infinity, path, st);
  }

  /** `\d{4}` over the default range emits four decimal digits. */
  lemma FourDigits(cfg: Config, path: Path, st: State)
    requires ValidConfig(cfg) && cfg.range == DefaultRange()
    ensures var r := Gen(cfg, Repetition(Sets.Ints(), 4, Finite(4)), path, st);
      && r.Ok? && r.value.0.Str? && |r.value.0.text| == 4
      && forall i :: 0 <= i < 4 ==> IsDigit(r.value.0.text[i])
  {
    var t := Sets.Ints();
    DigitClass(cfg);
    RepetitionCount(cfg, t, 4, Finite(4), path, st);
  }

  /** Over the default range `\d` always emits one character, and only a
      decimal digit. */
  lemma DigitClass(cfg: Config)
    requires ValidConfig(cfg) && cfg.range == DefaultRange()
    ensures SingleChar(cfg, Sets.Ints())
    ensures forall x :: Admits(cfg, Sets.Ints(), x) ==> IsDigit(x)
  {
    var t := Sets.Ints();
    assert t == Set([ItemRange(48, 57)], false);
    ExpandMembership(cfg, t.items, t.negated, 48);
    assert CoversEither(cfg, t.items[0], 48);
    forall x | Admits(cfg, t, x)
      ensures IsDigit(x)
    {
      assert InSet(cfg, t.items, false, x);
      var k :| 0 <= k < |t.items| && CoversEither(cfg, t.items[k], x);
      OtherCaseInvolution(x);
    }
  }

  // ---------------------------------------------------------------------
  // Captures and back-references

  /** A remembering GROUP stores what it emitted under its group number:
      the number it already had, or otherwise the next free slot of the
      capture table. */
  lemma CaptureStored(cfg: Config, b: Body, name: string, path: Path, st: State)
    requires ValidConfig(cfg)
    ensures var r := Gen(cfg, Group(b, true, name, false, false), path, st);
      r.Ok? ==>
        && r.value.0.Str?
        && path in r.value.1.numbers
        && (path in st.numbers ==> r.value.1.numbers[path] == st.numbers[path])
        && (path !in st.numbers ==> r.value.1.numbers[path] == |st.groups|)
        && r.value.1.numbers[path] < |r.value.1.groups|
        && r.value.1.groups[r.value.1.numbers[path]] == Some(r.value.0.text)
  {
  }

  /** A non-remembering GROUP leaves the capture table as its body left it. */
  lemma NonCapturingGroup(cfg: Config, b: Body, name: string, path: Path, st: State)
    requires ValidConfig(cfg)
    ensures var r := Gen(cfg, Group(b, false, name, false, false), path, st);
      && (r.Ok? <==> GenBody(cfg, b, path, st).Ok?)
      && (r.Ok? ==> r.value == (Str(GenBody(cfg, b, path, st).value.0), GenBody(cfg, b, path, st).value.1))
  {
  }

  /** A REFERENCE emits the text captured so far by its group, or nothing
      when that group has not finished, does not exist, or captured
      nothing; it changes no state. */
  lemma ReferenceOutput(cfg: Config, n: int, path: Path, st: State)
    requires ValidConfig(cfg)
    ensures var r := Gen(cfg, Reference(n), path, st);
      && r.Ok? && r.value.1 == st && r.value.0.Str?
      && (1 <= n <= |st.groups| && st.groups[n - 1].Some? ==> r.value.0.text == st.groups[n - 1].value)
      && (n < 1 || n > |st.groups| ==> r.value.0.text == [])
      && (1 <= n <= |st.groups| && st.groups[n - 1].None? ==> r.value.0.text == [])
  {
  }

  /** A remembering GROUP reserves its slot before expanding its body: a
      reference to the group from inside itself finds the slot empty and
      emits nothing, so `(c\1)` emits just `c` and captures it. */
  lemma SelfReferenceIsEmpty(cfg: Config, c: int, numbers: map<Path, nat>, drawn: nat)
    requires ValidConfig(cfg) && !cfg.ignoreCase
    requires [] !in numbers
    ensures var r := Gen(cfg, Group(Stack([Char(c), Reference(1)]), true, "", false, false), [], State([], numbers, drawn));
      && r.Ok? && r.value.0 == Str([c])
      && r.value.1.groups == [Some([c])]
  {
    var st0 := State([], numbers, drawn);
    var st1 := st0.(groups := [None], numbers := numbers[[] := 0]);
    var ts := [Char(c), Reference(1)];
    assert Gen(cfg, ts[1], [] + [1], st1) == Ok((Str([]), st1));
    assert GenStack(cfg, ts, [], 2, st1) == Ok(([], st1));
    assert GenStack(cfg, ts, [], 1, st1) == Ok(([] + [], st1));
    assert Gen(cfg, ts[0], [] + [0], st1) == Ok((Str([c]), st1));
    assert GenStack(cfg, ts, [], 0, st1) == Ok(([c] + ([] + []), st1));
    assert [c] + ([] + []) == [c];
    assert GenBody(cfg, Stack(ts), [], st1) == Ok(([c], st1));
    assert Store([None], 0, [c]) == [Some([c])];
    assert st0.groups + [None] == [None];
    assert st1.numbers[[]] == 0;
    assert Gen(cfg, Group(Stack(ts), true, "", false, false), [], st0)
      == Ok((Str([c]), st1.(groups := Store(st1.groups, 0, [c]))));
  }

  /** `(…)\1`: the back-reference repeats exactly what the group emitted,
      so the output is a square. This holds on the first run and on every
      later one, since the group's first visit always gives it number 0. */
  lemma BackReferenceRepeats(cfg: Config, b: Body, numbers: map<Path, nat>, drawn: nat)
    requires ValidConfig(cfg)
    requires [0] !in numbers || numbers[[0]] == 0
    ensures var r := Generate(cfg, Root(Stack([Group(b, true, "", false, false), Reference(1)])), numbers, drawn);
      r.Ok? ==>
        && r.value.0.Str?
        && |r.value.0.text| % 2 == 0
        && r.value.0.text[..|r.value.0.text| / 2] == r.value.0.text[|r.value.0.text| / 2..]
  {
    var ts := [Group(b, true, "", false, false), Reference(1)];
    var st0 := State([], numbers, drawn);
    var r := Generate(cfg, Root(Stack(ts)), numbers, drawn);
    if r.Ok? {
      assert r == Gen(cfg, Root(Stack(ts)), [], st0);
      var body := GenStack(cfg, ts, [], 0, st0);
      assert r.value.0.text == body.value.0;
      var g := Gen(cfg, ts[0], [] + [0], st0);
      assert [] + [0] == [0];
      assert g.Ok?;
      CaptureStored(cfg, b, "", [0], st0);
      var s := g.value.0.text;
      var st1 := g.value.1;
      assert st1.numbers[[0]] == 0;
      ReferenceOutput(cfg, 1, [] + [1], st1);
      assert GenStack(cfg, ts, [], 2, st1) == Ok(([], st1));
      assert GenStack(cfg, ts, [], 1, st1) == Ok((s + [], st1));
      assert body.value.0 == s + (s + []);
      var out := s + s;
      assert out[..|out| / 2] == s && out[|out| / 2..] == s;
    }
  }

  /** The capture table starts empty on every run while group numbers
      persist, so a group first visited in a later run takes number 0 even
      when a group numbered in an earlier run already holds 0: the two
      groups then share a slot. */
  lemma LateGroupSharesNumber(cfg: Config, b: Body, numbers: map<Path, nat>, drawn: nat, q: Path)
    requires ValidConfig(cfg)
    requires [0] !in numbers && q in numbers && numbers[q] == 0
    ensures var r := Generate(cfg, Root(Stack([Group(b, true, "", false, false)])), numbers, drawn);
      r.Ok? ==> [0] in r.value.1.numbers && r.value.1.numbers[[0]] == 0 == r.value.1.numbers[q]
  {
    var ts := [Group(b, true, "", false, false)];
    var st0 := State([], numbers, drawn);
    var r := Generate(cfg, Root(Stack(ts)), numbers, drawn);
    if r.Ok? {
      assert r == Gen(cfg, Root(Stack(ts)), [], st0);
      var body := GenStack(cfg, ts, [], 0, st0);
      assert r.value.1 == body.value.1;
      var g := Gen(cfg, ts[0], [] + [0], st0);
      assert [] + [0] == [0];
      assert g.Ok?;
      CaptureStored(cfg, b, "", [0], st0);
      assert GenStack(cfg, ts, [], 1, g.value.1) == Ok(([], g.value.1));
      assert body.value.1 == g.value.1;
    }
  }
}
