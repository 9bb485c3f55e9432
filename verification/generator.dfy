/** The generator: walks a token tree and produces one random string the
    expression matches. Randomness comes from a stream of draws in [0, 1)
    supplied by the configuration; the state threads the capture table,
    the group numbers assigned so far and how many draws were consumed. */
module Generator {
  import opened Wrappers
  import opened Text
  import opened Tokens
  import opened RangeSet

  // ---------------------------------------------------------------------
  // Configuration and state

  /** The address of a node in the token tree: the indices taken from the
      root. Elements of a stack get `path + [j]`, elements of option `k`
      get `path + [k, j]`, and a REPETITION's child gets `path + [0]`. */
  type Path = seq<nat>

  /** `max` is the extra count an unbounded repetition may reach,
      `range` the characters generation draws from, `ignoreCase` the `i`
      flag, and `random(i)` the i-th number the random source returns. */
  datatype Config = Config(max: int, range: set<int>, ignoreCase: bool, random: nat -> real)

  /** The extra count an unbounded repetition may reach when neither the
      expression nor the prototype sets `max`. */
  const DefaultMax := 100

  /** The configuration a new generator starts from: `max` 100, the
      printable ASCII range, and `i` exactly when the flag string holds it. */
  function DefaultConfig(flags: string, random: nat -> real): (cfg: Config)
    ensures cfg.max == 100
    ensures forall c :: c in cfg.range <==> 32 <= c <= 126
    ensures cfg.ignoreCase <==> exists k :: 0 <= k < |flags| && flags[k] == 'i'
    ensures cfg.random == random
  {
    Config(DefaultMax, DefaultRange(), 'i' in flags, random)
  }

  /** The printable ASCII characters, space (32) through tilde (126). */
  function DefaultRange(): (r: set<int>)
    ensures forall c :: c in r <==> 32 <= c <= 126
  {
    Span(32, 126)
  }

  /** Every draw lies in [0, 1), as `Math.random` and seeded generators promise. */
  ghost predicate ValidConfig(cfg: Config) {
    forall i: nat :: 0.0 <= cfg.random(i) < 1.0
  }

  /** `groups` is the capture table of the current run (`None` for a slot
      reserved or skipped but not yet filled); `numbers` the group number
      already given to each remembering group, which outlives a run; and
      `drawn` how many random numbers have been consumed. */
  datatype State = State(groups: seq<Option<Text>>, numbers: map<Path, nat>, drawn: nat)

  /** What a node generates: a string, or JavaScript's `undefined` for a
      node type the generator has no case for. */
  datatype Value = Str(text: Text) | Undefined

  /** `str += value`: `undefined` is appended as the text "undefined". */
  function Coerce(v: Value): (r: Text)
    ensures v.Str? ==> r == v.text
    ensures v.Undefined? ==> r == Lit("undefined")
  {
    match v
    case Str(s) => s
    case Undefined => Lit("undefined")
  }

  /** Generation fails (a TypeError in the source) when a ROOT or GROUP has
      no body, or when its options are empty. */
  datatype GenError = MissingBody | NoOption

  /** A failed generation: what went wrong, and the state reached when it
      was thrown. Group numbers written onto the tokens and draws taken
      before the throw are not undone, so a caller that catches the error
      and generates again continues from this state. */
  datatype Failure = Failure(kind: GenError, reached: State)

  /** `later` keeps everything `earlier` established: numbers are never
      reassigned, the capture table only grows and draws are only consumed. */
  predicate Extends(earlier: State, later: State) {
    && (forall p :: p in earlier.numbers ==> p in later.numbers && later.numbers[p] == earlier.numbers[p])
    && |earlier.groups| <= |later.groups|
    && earlier.drawn <= later.drawn
  }

  /** Takes the next draw. */
  function Draw(cfg: Config, st: State): (r: (real, State))
    requires ValidConfig(cfg)
    ensures 0.0 <= r.0 < 1.0
    ensures r.1 == st.(drawn := st.drawn + 1)
  {
    (cfg.random(st.drawn), st.(drawn := st.drawn + 1))
  }

  // ---------------------------------------------------------------------
  // randInt, randBool, toOtherCase

  /** `randInt(a, b)`: `a + floor(r * (1 + b - a))`; for a draw in [0, 1)
      and `a <= b` it lies between `a` and `b` inclusive. */
  function RandInt(a: int, b: int, r: real): (n: int)
    ensures 0.0 <= r < 1.0 && a <= b ==> a <= n <= b
  {
    a + (r * (1 + b - a) as real).Floor
  }

  /** `randBool`: true when `randInt(0, 1)` is 0, that is for a draw below one half. */
  function RandBool(r: real): (b: bool)
    ensures 0.0 <= r < 1.0 ==> (b <==> r < 0.5)
  {
    RandInt(0, 1, r) == 0
  }

  predicate IsLower(c: int) { 97 <= c <= 122 }
  predicate IsUpper(c: int) { 65 <= c <= 90 }

  /** `_toOtherCase`: swaps ASCII letters between cases by 32 and leaves
      every other code alone. */
  function OtherCase(c: int): (r: int)
    ensures IsLower(c) ==> IsUpper(r) && r == c - 32
    ensures IsUpper(c) ==> IsLower(r) && r == c + 32
    ensures !IsLower(c) && !IsUpper(c) ==> r == c
  {
    c + (if IsLower(c) then -32 else if IsUpper(c) then 32 else 0)
  }

  /** Swapping case twice gives the code back; it changes exactly the letters. */
  lemma OtherCaseInvolution(c: int)
    ensures OtherCase(OtherCase(c)) == c
    ensures OtherCase(c) != c <==> IsLower(c) || IsUpper(c)
  {
  }

  // ---------------------------------------------------------------------
  // _expand

  /** The other-case codes added for the letters of `sub` under `i`. */
  function Fold(sub: set<int>): (r: set<int>)
    ensures forall c :: c in r <==> OtherCase(c) != c && OtherCase(c) in sub
  {
    var r := set c | c in sub && OtherCase(c) != c :: OtherCase(c);
    forall c | OtherCase(c) != c && OtherCase(c) in sub
      ensures c in r
    {
      OtherCaseInvolution(c);
    }
    forall c | c in r
      ensures OtherCase(c) != c && OtherCase(c) in sub
    {
      var d :| d in sub && OtherCase(d) != d && c == OtherCase(d);
      OtherCaseInvolution(d);
    }
    r
  }

  /** `_expand` of one set element: a CHAR is itself, a RANGE its
      interval, a nested SET its own expansion. */
  function ExpandItem(cfg: Config, item: SetItem): (r: set<int>)
    decreases item
  {
    match item
    case ItemChar(c) => {c}
    case ItemRange(f, t) => Span(f, t)
    case ItemSet(items, negated) => Expand(cfg, items, negated)
  }

  /** The union of the elements' expansions, each with its other-case
      letters added when the case is ignored. */
  function Union(cfg: Config, items: seq<SetItem>): (r: set<int>)
    decreases items, 0
  {
    if items == [] then {}
    else
      var sub := ExpandItem(cfg, items[0]);
      sub + (if cfg.ignoreCase then Fold(sub) else {}) + Union(cfg, items[1..])
  }

  /** `_expand` of a SET: the default range minus the union when negated,
      the default range intersected with it otherwise. */
  function Expand(cfg: Config, items: seq<SetItem>, negated: bool): (r: set<int>)
    ensures r <= cfg.range
    decreases items, 1
  {
    var u := Union(cfg, items);
    if negated then cfg.range - u else cfg.range * u
  }

  /** Reference definition of set membership, one character at a time: an
      element covers `c` when it matches `c` or, under `i`, matches the
      other case of the letter `c`. */
  predicate Covers(cfg: Config, item: SetItem, c: int)
    decreases item, 0
  {
    match item
    case ItemChar(x) => c == x
    case ItemRange(f, t) => f <= c <= t
    case ItemSet(items, negated) => InSet(cfg, items, negated, c)
  }

  predicate CoversEither(cfg: Config, item: SetItem, c: int)
    decreases item, 1
  {
    Covers(cfg, item, c) || (cfg.ignoreCase && OtherCase(c) != c && Covers(cfg, item, OtherCase(c)))
  }

  predicate AnyCovers(cfg: Config, items: seq<SetItem>, c: int)
    decreases items, 2
  {
    exists i :: 0 <= i < |items| && CoversEither(cfg, items[i], c)
  }

  /** `c` can come out of a SET: it is in the range, and some element
      covers it exactly when the set is not negated. */
  predicate InSet(cfg: Config, items: seq<SetItem>, negated: bool, c: int)
    decreases items, 3
  {
    c in cfg.range && (AnyCovers(cfg, items, c) != negated)
  }

  lemma {:induction false} ExpandItemMembership(cfg: Config, item: SetItem, c: int)
    ensures c in ExpandItem(cfg, item) <==> Covers(cfg, item, c)
    decreases item
  {
    match item
    case ItemChar(_) =>
    case ItemRange(_, _) =>
    case ItemSet(items, negated) =>
      ExpandMembership(cfg, items, negated, c);
  }

  lemma {:induction false} UnionMembership(cfg: Config, items: seq<SetItem>, c: int)
    ensures c in Union(cfg, items) <==> AnyCovers(cfg, items, c)
    decreases items, 0
  {
    if items != [] {
      ExpandItemMembership(cfg, items[0], c);
      ExpandItemMembership(cfg, items[0], OtherCase(c));
      UnionMembership(cfg, items[1..], c);
      if AnyCovers(cfg, items[1..], c) {
        var i :| 0 <= i < |items[1..]| && CoversEither(cfg, items[1..][i], c);
        assert CoversEither(cfg, items[i + 1], c);
      }
      if AnyCovers(cfg, items, c) {
        var i :| 0 <= i < |items| && CoversEither(cfg, items[i], c);
        if i > 0 {
          assert CoversEither(cfg, items[1..][i - 1], c);
        }
      }
      assert CoversEither(cfg, items[0], c) ==> AnyCovers(cfg, items, c);
    }
  }

  /** A character is in the expansion of a SET exactly when the pointwise
      reference definition admits it. */
  lemma {:induction false} ExpandMembership(cfg: Config, items: seq<SetItem>, negated: bool, c: int)
    ensures c in Expand(cfg, items, negated) <==> InSet(cfg, items, negated, c)
    decreases items, 1
  {
    UnionMembership(cfg, items, c);
  }

  // ---------------------------------------------------------------------
  // The capture table

  /** `groups[k] = s`: fills slot `k`, growing the table with empty slots
      when `k` lies beyond its end. */
  function Store(groups: seq<Option<Text>>, k: nat, s: Text): (r: seq<Option<Text>>)
    ensures |r| == if k < |groups| then |groups| else k + 1
    ensures r[k] == Some(s)
    ensures forall i :: 0 <= i < |groups| && i != k ==> r[i] == groups[i]
    ensures forall i :: |groups| <= i < |r| && i != k ==> r[i] == None
  {
    if k < |groups| then groups[k := Some(s)]
    else groups + seq(k - |groups|, _ => None) + [Some(s)]
  }

  /** `groups[n - 1] || ''`: the text captured by group `n`, or nothing for
      a group number out of range, a slot not filled yet, or an empty capture. */
  function Captured(groups: seq<Option<Text>>, n: int): (r: Text)
    ensures 1 <= n <= |groups| && groups[n - 1].Some? ==> r == groups[n - 1].value
    ensures !(1 <= n <= |groups| && groups[n - 1].Some?) ==> r == []
  {
    if 1 <= n <= |groups| then groups[n - 1].GetOr([]) else []
  }

  // ---------------------------------------------------------------------
  // _gen

  /** When generation cannot fail: every ROOT or GROUP that might be
      entered has a body, and its options are not empty. */
  predicate Generable(t: Token)
    decreases t
  {
    match t
    case Root(b) => GenerableBody(b)
    case Group(b, _, _, followedBy, notFollowedBy) => followedBy || notFollowedBy || GenerableBody(b)
    case Repetition(c, _, _) => Generable(c)
    case _ => true
  }

  predicate GenerableBody(b: Body)
    decreases b
  {
    match b
    case Options(opts) => |opts| >= 1 && forall k :: 0 <= k < |opts| ==> GenerableStack(opts[k].stack)
    case Stack(ts) => GenerableStack(ts)
    case NoBody => false
  }

  predicate GenerableStack(ts: seq<Token>)
    decreases ts
  {
    forall j :: 0 <= j < |ts| ==> Generable(ts[j])
  }

  /** `_gen(token, groups)` for the node at `path`. */
  function Gen(cfg: Config, t: Token, path: Path, st: State): (r: Result<(Value, State), Failure>)
    requires ValidConfig(cfg)
    ensures r.Ok? ==> Extends(st, r.value.1)
    ensures r.Err? ==> Extends(st, r.error.reached)
    ensures Generable(t) ==> r.Ok?
    decreases t, 1
  {
    match t
    case Root(b) =>
      var (s, st1) :- GenBody(cfg, b, path, st);
      Ok((Str(s), st1))
    case Group(b, remember, _, followedBy, notFollowedBy) =>
      if followedBy || notFollowedBy then Ok((Str([]), st))
      else
        var st1 := if remember && path !in st.numbers
          then st.(groups := st.groups + [None], numbers := st.numbers[path := |st.groups|])
          else st;
        var (s, st2) :- GenBody(cfg, b, path, st1);
        if remember then
          Ok((Str(s), st2.(groups := Store(st2.groups, st2.numbers[path], s))))
        else Ok((Str(s), st2))
    case Position(_) => Ok((Str([]), st))
    case Set(items, negated) => Ok(GenSetNode(cfg, items, negated, st))
    case Repetition(c, min, max) => GenRepetitionNode(cfg, c, min, max, path, st)
    case Reference(n) => Ok((Str(Captured(st.groups, n)), st))
    case Char(c) =>
      if cfg.ignoreCase then
        var (x, st1) := Draw(cfg, st);
        Ok((Str([if RandBool(x) then OtherCase(c) else c]), st1))
      else Ok((Str([c]), st))
    case Range(_, _) => Ok((Undefined, st))
    case Unknown(_) => Ok((Undefined, st))
  }

  /** A SET: nothing, without a draw, when the expansion is empty; otherwise
      the character at position `randInt(0, size - 1)` of the ascending
      expansion, for one draw. */
  function GenSetNode(cfg: Config, items: seq<SetItem>, negated: bool, st: State): (r: (Value, State))
    requires ValidConfig(cfg)
    ensures Extends(st, r.1)
    ensures r.0.Str? && |r.0.text| <= 1
    ensures r.0.text == [] <==> Expand(cfg, items, negated) == {}
    ensures r.0.text == [] ==> r.1 == st
    ensures r.0.text != [] ==>
      r.0.text[0] in Expand(cfg, items, negated) && r.1 == st.(drawn := st.drawn + 1)
  {
    var chars := Expand(cfg, items, negated);
    if |chars| == 0 then (Str([]), st)
    else
      var (x, st1) := Draw(cfg, st);
      (Str([Index(chars, RandInt(0, |chars| - 1, x))]), st1)
  }

  /** The upper bound a REPETITION draws its count up to: `max`, or
      `min + max` of the configuration when unbounded. */
  function Ceiling(cfg: Config, min: int, max: Bound): int
  {
    if max.Infinity? then min + cfg.max else max.n
  }

  /** A REPETITION: one draw picks the count with `randInt(min, ceiling)`,
      then the child generates that many times (none for a count below one). */
  function GenRepetitionNode(cfg: Config, c: Token, min: int, max: Bound, path: Path, st: State): (r: Result<(Value, State), Failure>)
    requires ValidConfig(cfg)
    ensures r.Ok? ==> Extends(st, r.value.1)
    ensures r.Err? ==> Extends(st, r.error.reached)
    ensures Generable(c) ==> r.Ok?
    decreases Repetition(c, min, max), 0
  {
    var (x, st1) := Draw(cfg, st);
    var n := RandInt(min, Ceiling(cfg, min, max), x);
    var (s, st2) :- GenRepeat(cfg, c, path + [0], if n > 0 then n else 0, st1);
    Ok((Str(s), st2))
  }

  /** The body of a ROOT or GROUP: one option chosen by a draw, or the stack. */
  function GenBody(cfg: Config, b: Body, path: Path, st: State): (r: Result<(Text, State), Failure>)
    requires ValidConfig(cfg)
    ensures r.Ok? ==> Extends(st, r.value.1)
    ensures r.Err? ==> Extends(st, r.error.reached)
    ensures GenerableBody(b) ==> r.Ok?
    decreases b, 0
  {
    match b
    case Options(opts) =>
      var (x, st1) := Draw(cfg, st);
      if |opts| == 0 then Err(Failure(NoOption, st1))
      else
        var k := RandInt(0, |opts| - 1, x);
        GenStack(cfg, opts[k].stack, path + [k], 0, st1)
    case Stack(ts) => GenStack(cfg, ts, path, 0, st)
    case NoBody => Err(Failure(MissingBody, st))
  }

  /** The elements `ts[j..]` of a stack, concatenated left to right. */
  function GenStack(cfg: Config, ts: seq<Token>, path: Path, j: nat, st: State): (r: Result<(Text, State), Failure>)
    requires ValidConfig(cfg)
    requires j <= |ts|
    ensures r.Ok? ==> Extends(st, r.value.1)
    ensures r.Err? ==> Extends(st, r.error.reached)
    ensures GenerableStack(ts) ==> r.Ok?
    decreases ts, |ts| - j
  {
    if j == |ts| then Ok(([], st))
    else
      var (v, st1) :- Gen(cfg, ts[j], path + [j], st);
      var (s, st2) :- GenStack(cfg, ts, path, j + 1, st1);
      Ok((Coerce(v) + s, st2))
  }

  /** `n` successive generations of a REPETITION's child. */
  function GenRepeat(cfg: Config, c: Token, path: Path, n: nat, st: State): (r: Result<(Text, State), Failure>)
    requires ValidConfig(cfg)
    ensures r.Ok? ==> Extends(st, r.value.1)
    ensures r.Err? ==> Extends(st, r.error.reached)
    ensures Generable(c) ==> r.Ok?
    decreases c, n + 1
  {
    if n == 0 then Ok(([], st))
    else
      var (v, st1) :- Gen(cfg, c, path, st);
      var (s, st2) :- GenRepeat(cfg, c, path, n - 1, st1);
      Ok((Coerce(v) + s, st2))
  }

  /** `generate()`: a fresh capture table for every run; the group numbers
      and the position in the random stream carry over from earlier runs,
      whether the earlier run returned or threw. */
  function Generate(cfg: Config, root: Token, numbers: map<Path, nat>, drawn: nat): (r: Result<(Value, State), Failure>)
    requires ValidConfig(cfg)
    ensures r.Ok? ==> r.value.1.drawn >= drawn
    ensures r.Ok? ==> forall p :: p in numbers ==> p in r.value.1.numbers && r.value.1.numbers[p] == numbers[p]
    ensures r.Err? ==> r.error.reached.drawn >= drawn
    ensures r.Err? ==> forall p :: p in numbers ==> p in r.error.reached.numbers && r.error.reached.numbers[p] == numbers[p]
    ensures Generable(root) ==> r.Ok?
  {
    Gen(cfg, root, [], State([], numbers, drawn))
  }
}
