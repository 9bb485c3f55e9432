/** The set writer: renders a SET token as a shorthand (`\d \D \w \W \s \S .`)
    when its elements are a predefined class, and as a bracketed class
    otherwise, escaping the characters that are special inside brackets. */
module SetWriter {
  import opened Wrappers
  import opened Text
  import opened Tokens
  import opened Sets

  /** The characters a class escapes: `^`, `\`, `]` and `-`. */
  predicate IsSetSpecial(c: int) {
    c == 94 || c == 92 || c == 93 || c == Hyphen
  }

  /** `setChar`: one class character, backslash-escaped exactly when it is
      special inside brackets. */
  function SetChar(c: int): (r: Text)
    ensures IsSetSpecial(c) ==> r == [Backslash, c]
    ensures !IsSetSpecial(c) ==> r == [c]
  {
    if c == 94 then [Backslash, 94]
    else if c == 92 then [Backslash, 92]
    else if c == 93 then [Backslash, 93]
    else if c == Hyphen then [Backslash, Hyphen]
    else [c]
  }

  // ---------------------------------------------------------------------
  // isSameSet: the consume-once comparison against a lookup table

  /** The loop of `isSameSet`: each element must be flat and find its key
      still present; a found key is struck out. */
  function Consume(items: seq<SetItem>, keys: set<Key>): bool
    decreases |items|
  {
    if items == [] then true
    else if items[0].ItemSet? then false
    else
      var k := KeyOf(items[0]);
      if k in keys then Consume(items[1..], keys - {k}) else false
  }

  /** `isSameSet`: the lengths must agree, then every element is consumed. */
  function IsSameSet(items: seq<SetItem>, lookup: Lookup): (b: bool)
    ensures |items| != lookup.len ==> !b
  {
    if lookup.len != |items| then false else Consume(items, lookup.keys)
  }

  /** Reference definition: the elements are flat and their keys are a
      permutation of the list's keys. */
  predicate SameClass(items: seq<SetItem>, list: seq<SetItem>)
    requires AllFlat(list)
  {
    AllFlat(items) && multiset(Keys(items)) == multiset(Keys(list))
  }

  lemma {:induction false} ConsumeIsSubMultiset(items: seq<SetItem>, keys: set<Key>)
    ensures Consume(items, keys) <==> AllFlat(items) && multiset(Keys(items)) <= multiset(keys)
    decreases |items|
  {
    if items != [] && !items[0].ItemSet? {
      var k := KeyOf(items[0]);
      ConsumeIsSubMultiset(items[1..], keys - {k});
      FlatCons(items);
      if AllFlat(items) {
        StrikeKey(k, multiset(Keys(items[1..])), keys);
      }
    }
  }

  /** Splitting off the first flat element of a list. */
  lemma FlatCons(items: seq<SetItem>)
    requires items != [] && !items[0].ItemSet?
    ensures AllFlat(items) <==> AllFlat(items[1..])
    ensures AllFlat(items) ==>
      multiset(Keys(items)) == multiset{KeyOf(items[0])} + multiset(Keys(items[1..]))
  {
    assert items == [items[0]] + items[1..];
    if AllFlat(items) {
      assert Keys(items) == [KeyOf(items[0])] + Keys(items[1..]);
    }
  }

  /** One more `k` fits in a set's multiset exactly when `k` is present and
      the rest fits once `k` is struck out. */
  lemma StrikeKey(k: Key, m: multiset<Key>, keys: set<Key>)
    ensures multiset{k} + m <= multiset(keys) <==> k in keys && m <= multiset(keys - {k})
  {
    if k in keys {
      assert multiset(keys - {k}) == multiset(keys) - multiset{k};
    } else {
      assert multiset(keys)[k] == 0;
      assert (multiset{k} + m)[k] >= 1;
    }
  }

  /** A multiset included in another of the same size equals it. */
  lemma SubMultisetOfSameSize<T>(a: multiset<T>, b: multiset<T>)
    requires a <= b && |a| == |b|
    ensures a == b
  {
    var d := b - a;
    assert b == a + d;
    assert |d| == 0;
  }

  /** A sequence without repeats has one copy of each member. */
  lemma {:induction false} DistinctMultiset<T>(s: seq<T>)
    requires forall i, j :: 0 <= i < j < |s| ==> s[i] != s[j]
    ensures multiset(set x | x in s) == multiset(s)
    decreases |s|
  {
    if s != [] {
      var rest := s[1..];
      assert forall i, j :: 0 <= i < j < |rest| ==> rest[i] == s[i + 1] && rest[j] == s[j + 1];
      DistinctMultiset(rest);
      assert forall j :: 0 <= j < |rest| ==> rest[j] == s[j + 1];
      DistinctStep(s);
    }
  }

  /** A head that does not occur in the tail adds one copy to both sides. */
  lemma DistinctStep<T>(s: seq<T>)
    requires s != [] && s[0] !in s[1..]
    requires multiset(set x | x in s[1..]) == multiset(s[1..])
    ensures multiset(set x | x in s) == multiset(s)
  {
    var tail := set x | x in s[1..];
    SetOfCons(s);
    assert s == [s[0]] + s[1..];
    assert multiset({s[0]} + tail) == multiset{s[0]} + multiset(tail);
  }

  /** The members of a non-empty sequence: its head and those of its tail. */
  lemma SetOfCons<T>(s: seq<T>)
    requires s != []
    ensures (set x | x in s) == {s[0]} + (set x | x in s[1..])
  {
    assert s == [s[0]] + s[1..];
  }

  /** The keys of a list without repeats, as a multiset, are its key set. */
  lemma DistinctKeysMultiset(list: seq<SetItem>)
    requires AllFlat(list) && DistinctKeys(list)
    ensures multiset(LookupOf(list).keys) == multiset(Keys(list))
  {
    var ks := Keys(list);
    DistinctMultiset(ks);
    assert LookupOf(list).keys == set x | x in ks;
  }

  /** `isSameSet` against a table built from a list without repeated keys is
      exactly the permutation test: consume-once never accepts a repeated
      key, a nested SET or a missing key, and the length check rules out
      leftovers. */
  lemma IsSameSetIsPermutation(items: seq<SetItem>, list: seq<SetItem>)
    requires AllFlat(list) && DistinctKeys(list)
    ensures IsSameSet(items, LookupOf(list)) <==> SameClass(items, list)
  {
    var lookup := LookupOf(list);
    ConsumeIsSubMultiset(items, lookup.keys);
    DistinctKeysMultiset(list);
    if IsSameSet(items, lookup) {
      assert |multiset(Keys(items))| == |items| == |list| == |multiset(Keys(list))|;
      SubMultisetOfSameSize(multiset(Keys(items)), multiset(Keys(list)));
    }
    if SameClass(items, list) {
      assert |items| == |Keys(items)| == |multiset(Keys(items))| == |multiset(Keys(list))| == |list|;
    }
  }

  /** A nested SET anywhere among the elements makes `isSameSet` false,
      whatever the table. */
  lemma NestedSetNeverMatches(items: seq<SetItem>, lookup: Lookup, i: nat)
    requires i < |items| && items[i].ItemSet?
    ensures !IsSameSet(items, lookup)
  {
    ConsumeIsSubMultiset(items, lookup.keys);
    assert !IsFlat(items[i]);
  }

  /** Removing the element at `j` removes one copy of its key. */
  lemma KeysRemoveAt(b: seq<SetItem>, j: nat)
    requires AllFlat(b) && j < |b|
    ensures AllFlat(b[..j] + b[j + 1..])
    ensures multiset(Keys(b)) == multiset(Keys(b[..j] + b[j + 1..])) + multiset{KeyOf(b[j])}
  {
    var rest := b[..j] + b[j + 1..];
    assert Keys(b) == Keys(b)[..j] + [KeyOf(b[j])] + Keys(b)[j + 1..];
    assert Keys(rest) == Keys(b)[..j] + Keys(b)[j + 1..];
  }

  /** Rearranging flat elements leaves them flat. */
  lemma PermutedFlat(a: seq<SetItem>, b: seq<SetItem>)
    requires AllFlat(a) && multiset(a) == multiset(b)
    ensures AllFlat(b)
  {
    forall i | 0 <= i < |b|
      ensures IsFlat(b[i])
    {
      assert b[i] in multiset(a);
    }
  }

  /** Rearranging the elements rearranges their keys. */
  lemma {:induction false} PermutedKeys(a: seq<SetItem>, b: seq<SetItem>)
    requires AllFlat(a) && multiset(a) == multiset(b)
    ensures AllFlat(b) && multiset(Keys(a)) == multiset(Keys(b))
    decreases |a|
  {
    PermutedFlat(a, b);
    if a != [] {
      assert a[0] in multiset(b);
      var j :| 0 <= j < |b| && b[j] == a[0];
      var rest := b[..j] + b[j + 1..];
      KeysRemoveAt(b, j);
      assert multiset(Keys(a[1..])) == multiset(Keys(rest)) by {
        PermutedTail(a, b, j);
        PermutedKeys(a[1..], rest);
      }
      assert multiset(Keys(a)) == multiset(Keys(a[1..])) + multiset{KeyOf(a[0])} by {
        KeysRemoveAt(a, 0);
        assert a[..0] + a[1..] == a[1..];
      }
    }
  }

  /** Striking the first element of `a` and its copy at `j` in `b` leaves
      two rearrangements of each other. */
  lemma PermutedTail(a: seq<SetItem>, b: seq<SetItem>, j: nat)
    requires a != [] && multiset(a) == multiset(b) && j < |b| && b[j] == a[0]
    ensures multiset(a[1..]) == multiset(b[..j] + b[j + 1..])
  {
    assert a == [a[0]] + a[1..];
    assert b == b[..j] + [b[j]] + b[j + 1..];
    assert multiset(b) == multiset(b[..j]) + multiset{b[j]} + multiset(b[j + 1..]);
    assert multiset(b[..j] + b[j + 1..]) == multiset(b[..j]) + multiset(b[j + 1..]);
    assert multiset(a) == multiset{a[0]} + multiset(a[1..]);
    assert multiset(a[1..]) == multiset(a) - multiset{a[0]};
    assert multiset(b[..j]) + multiset(b[j + 1..]) == multiset(b) - multiset{b[j]};
  }

  /** With equal lengths, the verdict of `isSameSet` does not depend on the
      order of the elements. */
  lemma IsSameSetOrderIndependent(a: seq<SetItem>, b: seq<SetItem>, lookup: Lookup)
    requires multiset(a) == multiset(b)
    ensures IsSameSet(a, lookup) == IsSameSet(b, lookup)
  {
    assert |a| == |multiset(a)| == |multiset(b)| == |b|;
    ConsumeIsSubMultiset(a, lookup.keys);
    ConsumeIsSubMultiset(b, lookup.keys);
    if AllFlat(a) {
      PermutedKeys(a, b);
    } else if AllFlat(b) {
      PermutedKeys(b, a);
    }
  }

  /** An element list that repeats a key is never a predefined class:
      the second occurrence finds its key already struck out. */
  lemma RepeatedKeyFails(items: seq<SetItem>, lookup: Lookup, i: nat, j: nat)
    requires AllFlat(items) && i < j < |items|
    requires KeyOf(items[i]) == KeyOf(items[j])
    ensures !IsSameSet(items, lookup)
  {
    var k := KeyOf(items[i]);
    var ks := Keys(items);
    assert ks == ks[..j] + ks[j..];
    assert k in ks[..j] && k in ks[j..];
    assert multiset(ks)[k] == multiset(ks[..j])[k] + multiset(ks[j..])[k];
    ConsumeIsSubMultiset(items, lookup.keys);
  }

  // ---------------------------------------------------------------------
  // writeSetTokens / writeSetToken

  /** The shorthand a SET denotes, by the permutation test, in the order the
      writer tries them: digits, word characters, `.` (negated line
      terminators only), whitespace. */
  function Shorthand(items: seq<SetItem>, negated: bool): Option<Text>
  {
    PredefinedListsWellFormed();
    if SameClass(items, INTS) then Some(if negated then Lit("\\D") else Lit("\\d"))
    else if SameClass(items, WORDS) then Some(if negated then Lit("\\W") else Lit("\\w"))
    else if negated && SameClass(items, NOTANYCHAR) then Some(Lit("."))
    else if SameClass(items, WHITESPACE) then Some(if negated then Lit("\\S") else Lit("\\s"))
    else None
  }

  /** `[` + contents + `]`, or the bare contents inside another class. */
  function Bracket(isNested: bool, contents: Text): Text
  {
    if isNested then contents else [91] + contents + [93]
  }

  /** `writeSetTokens`: a shorthand when the elements are a predefined class,
      otherwise the optional `^` and every element's rendering, bracketed
      unless nested. */
  function WriteSetTokens(items: seq<SetItem>, negated: bool, isNested: bool): (r: Text)
    ensures Shorthand(items, negated).Some? ==> r == Shorthand(items, negated).value
    ensures Shorthand(items, negated).None? ==>
      r == Bracket(isNested, (if negated then [94] else []) + WriteItems(items))
    decreases items, 1
  {
    PredefinedListsWellFormed();
    IsSameSetIsPermutation(items, INTS);
    IsSameSetIsPermutation(items, WORDS);
    IsSameSetIsPermutation(items, NOTANYCHAR);
    IsSameSetIsPermutation(items, WHITESPACE);
    if IsSameSet(items, LookupOf(INTS)) then
      if negated then Lit("\\D") else Lit("\\d")
    else if IsSameSet(items, LookupOf(WORDS)) then
      if negated then Lit("\\W") else Lit("\\w")
    else if negated && IsSameSet(items, LookupOf(NOTANYCHAR)) then
      Lit(".")
    else if IsSameSet(items, LookupOf(WHITESPACE)) then
      if negated then Lit("\\S") else Lit("\\s")
    else
      Bracket(isNested, (if negated then [94] else []) + WriteItems(items))
  }

  /** The renderings of the elements, concatenated in order. */
  function WriteItems(items: seq<SetItem>): (r: Text)
    decreases items, 0
  {
    if items == [] then [] else WriteSetToken(items[0]) + WriteItems(items[1..])
  }

  /** `writeSetToken`: a CHAR via `setChar`, a RANGE as its escaped ends
      around `-`, a nested SET as its bracket-free rendering. */
  function WriteSetToken(item: SetItem): (r: Text)
    decreases item
  {
    match item
    case ItemChar(c) => SetChar(c)
    case ItemRange(f, t) => SetChar(f) + [Hyphen] + SetChar(t)
    case ItemSet(items, negated) => WriteSetTokens(items, negated, true)
  }

  // ---------------------------------------------------------------------
  // A reader for class syntax, the inverse the writer is checked against

  /** Reads one class character: `\` followed by any character, or a plain
      character. */
  function ReadSetChar(s: Text): Option<(int, Text)>
  {
    if s == [] then None
    else if s[0] == Backslash then (if |s| >= 2 then Some((s[1], s[2..])) else None)
    else Some((s[0], s[1..]))
  }

  /** Reads class elements: a character followed by an unescaped `-` and
      another character is a RANGE, anything else a CHAR. */
  function ReadItems(s: Text): Option<seq<SetItem>>
    decreases |s|
  {
    if s == [] then Some([])
    else match ReadSetChar(s)
      case None => None
      case Some((c, rest)) =>
        if |rest| >= 1 && rest[0] == Hyphen then
          match ReadSetChar(rest[1..])
          case None => None
          case Some((d, after)) =>
            match ReadItems(after)
            case None => None
            case Some(more) => Some([ItemRange(c, d)] + more)
        else
          match ReadItems(rest)
          case None => None
          case Some(more) => Some([ItemChar(c)] + more)
  }

  /** Reads a class written outside brackets: a shorthand, or `[`, an
      optional `^`, the elements and `]`. */
  function ReadSet(s: Text): Option<(seq<SetItem>, bool)>
  {
    if s == Lit("\\d") then Some((INTS, false))
    else if s == Lit("\\D") then Some((INTS, true))
    else if s == Lit("\\w") then Some((WORDS, false))
    else if s == Lit("\\W") then Some((WORDS, true))
    else if s == Lit(".") then Some((NOTANYCHAR, true))
    else if s == Lit("\\s") then Some((WHITESPACE, false))
    else if s == Lit("\\S") then Some((WHITESPACE, true))
    else if |s| >= 2 && s[0] == 91 && s[|s| - 1] == 93 then
      var inner := s[1..|s| - 1];
      if |inner| >= 1 && inner[0] == 94 then
        match ReadItems(inner[1..])
        case None => None
        case Some(items) => Some((items, true))
      else
        match ReadItems(inner)
        case None => None
        case Some(items) => Some((items, false))
    else None
  }

  /** Rendered flat elements never start with an unescaped special
      character. */
  lemma WrittenItemsStart(items: seq<SetItem>)
    requires AllFlat(items)
    ensures WriteItems(items) == [] || !IsSetSpecial(WriteItems(items)[0]) || WriteItems(items)[0] == Backslash
  {
    if items != [] {
      var first := if items[0].ItemChar? then items[0].code else items[0].from;
      var head := WriteSetToken(items[0]);
      assert head[0] == SetChar(first)[0];
      assert WriteItems(items) == head + WriteItems(items[1..]);
    }
  }

  lemma ReadSetCharOf(c: int, rest: Text)
    ensures ReadSetChar(SetChar(c) + rest) == Some((c, rest))
  {
    if IsSetSpecial(c) {
      assert (SetChar(c) + rest)[2..] == rest;
    } else {
      assert (SetChar(c) + rest)[1..] == rest;
    }
  }

  lemma ReadCharThen(c: int, more: Text, tail: seq<SetItem>)
    requires more == [] || more[0] != Hyphen
    requires ReadItems(more) == Some(tail)
    ensures ReadItems(SetChar(c) + more) == Some([ItemChar(c)] + tail)
  {
    ReadSetCharOf(c, more);
  }

  lemma ReadRangeThen(f: int, t: int, more: Text, tail: seq<SetItem>)
    requires ReadItems(more) == Some(tail)
    ensures ReadItems(SetChar(f) + [Hyphen] + SetChar(t) + more) == Some([ItemRange(f, t)] + tail)
  {
    var after := [Hyphen] + SetChar(t) + more;
    var s := SetChar(f) + after;
    assert SetChar(f) + [Hyphen] + SetChar(t) + more == s;
    assert s != [] && ReadSetChar(s) == Some((f, after)) by {
      ReadSetCharOf(f, after);
    }
    assert |after| >= 1 && after[0] == Hyphen;
    assert ReadSetChar(after[1..]) == Some((t, more)) by {
      assert after[1..] == SetChar(t) + more;
      ReadSetCharOf(t, more);
    }
  }

  /** One CHAR or RANGE, written on its own, reads back as exactly that
      element. */
  lemma WrittenTokenReadsBack(item: SetItem)
    requires IsFlat(item)
    ensures ReadItems(WriteSetToken(item)) == Some([item])
  {
    assert ReadItems([]) == Some([]);
    match item
    case ItemChar(c) =>
      ReadCharThen(c, [], []);
      assert SetChar(c) + [] == SetChar(c) == WriteSetToken(item);
      assert [ItemChar(c)] + [] == [item];
    case ItemRange(f, t) =>
      ReadRangeThen(f, t, [], []);
      assert SetChar(f) + [Hyphen] + SetChar(t) + [] == SetChar(f) + [Hyphen] + SetChar(t) == WriteSetToken(item);
      assert [ItemRange(f, t)] + [] == [item];
  }

  /** The rendering of flat elements reads back as the same elements: an
      unescaped `-` only ever separates the two ends of a RANGE. */
  lemma {:induction false} ReadWrittenItems(items: seq<SetItem>)
    requires AllFlat(items)
    ensures ReadItems(WriteItems(items)) == Some(items)
    decreases |items|
  {
    if items != [] {
      var rest := items[1..];
      var more := WriteItems(rest);
      ReadWrittenItems(rest);
      WrittenItemsStart(rest);
      assert WriteItems(items) == WriteSetToken(items[0]) + more;
      assert items == [items[0]] + rest;
      match items[0]
      case ItemChar(c) =>
        ReadCharThen(c, more, rest);
      case ItemRange(f, t) =>
        ReadRangeThen(f, t, more, rest);
    }
  }

  /** A bracketed class reads back as its elements and negation. */
  lemma ReadBracketed(items: seq<SetItem>, negated: bool)
    requires AllFlat(items)
    ensures ReadSet(Bracket(false, (if negated then [94] else []) + WriteItems(items))) == Some((items, negated))
  {
    var body := WriteItems(items);
    var inner := (if negated then [94] else []) + body;
    var text := [91] + inner + [93];
    assert Bracket(false, inner) == text;
    assert text[1..|text| - 1] == inner;
    assert text[0] == 91 && text[|text| - 1] == 93;
    assert text != Lit("\\d") && text != Lit("\\D") && text != Lit("\\w") && text != Lit("\\W");
    assert text != Lit(".") && text != Lit("\\s") && text != Lit("\\S");
    ReadWrittenItems(items);
    WrittenItemsStart(items);
    if negated {
      assert inner[0] == 94 && inner[1..] == body;
      assert ReadSet(text) == Some((items, true));
    } else {
      assert inner == body;
      assert !(|inner| >= 1 && inner[0] == 94);
      assert ReadSet(text) == Some((items, false));
    }
  }

  /** Each shorthand reads back as its predefined list and negation. */
  lemma ReadShorthands()
    ensures ReadSet(Lit("\\d")) == Some((INTS, false))
    ensures ReadSet(Lit("\\D")) == Some((INTS, true))
    ensures ReadSet(Lit("\\w")) == Some((WORDS, false))
    ensures ReadSet(Lit("\\W")) == Some((WORDS, true))
    ensures ReadSet(Lit(".")) == Some((NOTANYCHAR, true))
    ensures ReadSet(Lit("\\s")) == Some((WHITESPACE, false))
    ensures ReadSet(Lit("\\S")) == Some((WHITESPACE, true))
  {
    assert Lit("\\d") == [92, 100];
    assert Lit("\\D") == [92, 68];
    assert Lit("\\w") == [92, 119];
    assert Lit("\\W") == [92, 87];
    assert Lit(".") == [46];
    assert Lit("\\s") == [92, 115];
    assert Lit("\\S") == [92, 83];
  }

  /** Reading back what the writer produced for a flat SET outside a class
      gives the same negation and a permutation of the same keys; when no
      shorthand applies it gives back exactly the same elements. */
  lemma WriteSetRoundTrip(items: seq<SetItem>, negated: bool)
    requires AllFlat(items)
    ensures var r := ReadSet(WriteSetTokens(items, negated, false));
      && r.Some? && r.value.1 == negated
      && AllFlat(r.value.0) && multiset(Keys(r.value.0)) == multiset(Keys(items))
    ensures Shorthand(items, negated).None? ==>
      ReadSet(WriteSetTokens(items, negated, false)) == Some((items, negated))
  {
    PredefinedListsWellFormed();
    var w := WriteSetTokens(items, negated, false);
    if SameClass(items, INTS) {
      ReadShorthands();
      assert ReadSet(w) == Some((INTS, negated));
    } else if SameClass(items, WORDS) {
      ReadShorthands();
      assert ReadSet(w) == Some((WORDS, negated));
    } else if negated && SameClass(items, NOTANYCHAR) {
      ReadShorthands();
      assert ReadSet(w) == Some((NOTANYCHAR, true));
    } else if SameClass(items, WHITESPACE) {
      ReadShorthands();
      assert ReadSet(w) == Some((WHITESPACE, negated));
    } else {
      ReadBracketed(items, negated);
    }
  }

  /** Lists of different lengths are never the same class. */
  lemma DifferentLengths(items: seq<SetItem>, list: seq<SetItem>)
    requires AllFlat(list) && |items| != |list|
    ensures !SameClass(items, list)
  {
    if AllFlat(items) {
      assert |multiset(Keys(items))| == |items|;
      assert |multiset(Keys(list))| == |list|;
    }
  }

  /** A list holding a key the other lacks is not the same class. */
  lemma MissingKey(items: seq<SetItem>, list: seq<SetItem>, i: nat)
    requires AllFlat(items) && AllFlat(list) && i < |items|
    requires forall j :: 0 <= j < |list| ==> KeyOf(list[j]) != KeyOf(items[i])
    ensures !SameClass(items, list)
  {
    assert Keys(items)[i] in multiset(Keys(items));
    assert Keys(items)[i] !in Keys(list);
  }

  /** `\d` and `\D`: the digit class and its negation. */
  lemma DigitTokensWriteShorthand()
    ensures WriteSetTokens(Ints().items, Ints().negated, false) == Lit("\\d")
    ensures WriteSetTokens(NotInts().items, NotInts().negated, false) == Lit("\\D")
  {
    PredefinedListsWellFormed();
    assert SameClass(INTS, INTS);
  }

  /** `\w` and `\W`: the word class and its negation. */
  lemma WordTokensWriteShorthand()
    ensures WriteSetTokens(Words().items, Words().negated, false) == Lit("\\w")
    ensures WriteSetTokens(NotWords().items, NotWords().negated, false) == Lit("\\W")
  {
    PredefinedListsWellFormed();
    DifferentLengths(WORDS, INTS);
    assert SameClass(WORDS, WORDS);
  }

  /** `\s` and `\S`: the whitespace class and its negation. */
  lemma WhitespaceTokensWriteShorthand()
    ensures WriteSetTokens(Whitespace().items, Whitespace().negated, false) == Lit("\\s")
    ensures WriteSetTokens(NotWhitespace().items, NotWhitespace().negated, false) == Lit("\\S")
  {
    PredefinedListsWellFormed();
    DifferentLengths(WHITESPACE, INTS);
    DifferentLengths(WHITESPACE, WORDS);
    DifferentLengths(WHITESPACE, NOTANYCHAR);
    assert SameClass(WHITESPACE, WHITESPACE);
  }

  /** `.`: the negated line terminators. */
  lemma AnyCharTokenWritesDot()
    ensures WriteSetTokens(AnyChar().items, AnyChar().negated, false) == Lit(".")
  {
    PredefinedListsWellFormed();
    DifferentLengths(NOTANYCHAR, INTS);
    MissingKey(NOTANYCHAR, WORDS, 0);
    assert SameClass(NOTANYCHAR, NOTANYCHAR);
  }

  /** The line-terminator list without negation is not `.`: it is written
      out as a bracketed class. */
  lemma LineTerminatorsUnnegated(items: seq<SetItem>, isNested: bool)
    requires SameClass(items, NOTANYCHAR)
    ensures WriteSetTokens(items, false, isNested) == Bracket(isNested, WriteItems(items))
  {
    PredefinedListsFlat();
    SameClassSameLength(items, NOTANYCHAR);
    DifferentLengths(items, INTS);
    DifferentLengths(items, WHITESPACE);
    var i := SharedKey(items, NOTANYCHAR, 0);
    assert KeyOf(items[i]) == CharKey(10);
    MissingKey(items, WORDS, i);
    assert Shorthand(items, false).None?;
  }

  /** The same class has the same number of elements. */
  lemma SameClassSameLength(items: seq<SetItem>, list: seq<SetItem>)
    requires AllFlat(list) && SameClass(items, list)
    ensures |items| == |list|
  {
    assert |multiset(Keys(items))| == |multiset(Keys(list))|;
  }

  /** Every key of the list is the key of some element of the same class. */
  lemma SharedKey(items: seq<SetItem>, list: seq<SetItem>, j: nat) returns (i: nat)
    requires AllFlat(list) && SameClass(items, list) && j < |list|
    ensures i < |items| && KeyOf(items[i]) == KeyOf(list[j])
  {
    assert Keys(list)[j] in multiset(Keys(items));
    i :| 0 <= i < |items| && Keys(items)[i] == KeyOf(list[j]);
  }

  /** Nesting does not stop the shorthand checks: a negated line-terminator
      SET inside a class is still written as `.`, which inside brackets
      stands for a literal dot. */
  lemma NestedAnyCharWritesDot()
    ensures WriteSetToken(ItemSet(NOTANYCHAR, true)) == Lit(".")
  {
    AnyCharTokenWritesDot();
  }
}
