/** The predefined character classes: the element lists behind `\d`, `\w`,
    `\s` and `.`, the SET tokens built from them, and the lookup tables the
    set writer compares against (a key per element, plus the list length). */
module Sets {
  import opened Tokens

  const INTS: seq<SetItem> := [ItemRange(48, 57)]

  const WORDS: seq<SetItem> := [
    ItemChar(95),
    ItemRange(97, 122),
    ItemRange(65, 90),
    ItemRange(48, 57)
  ]

  const WHITESPACE: seq<SetItem> := [
    ItemChar(9),
    ItemChar(10),
    ItemChar(11),
    ItemChar(12),
    ItemChar(13),
    ItemChar(32),
    ItemChar(160),
    ItemChar(5760),
    ItemRange(8192, 8202),
    ItemChar(8232),
    ItemChar(8233),
    ItemChar(8239),
    ItemChar(8287),
    ItemChar(12288),
    ItemChar(65279)
  ]

  /** The line terminators; `.` is the negation of this list. */
  const NOTANYCHAR: seq<SetItem> := [
    ItemChar(10),
    ItemChar(13),
    ItemChar(8232),
    ItemChar(8233)
  ]

  /** The SET tokens of the predefined classes. */
  function Words(): Token { Set(WORDS, false) }
  function NotWords(): Token { Set(WORDS, true) }
  function Ints(): Token { Set(INTS, false) }
  function NotInts(): Token { Set(INTS, true) }
  function Whitespace(): Token { Set(WHITESPACE, false) }
  function NotWhitespace(): Token { Set(WHITESPACE, true) }
  function AnyChar(): Token { Set(NOTANYCHAR, true) }

  /** The key a lookup table files an element under: a CHAR's value, or the
      text `from-to` of a RANGE (distinct ranges give distinct texts). */
  datatype Key = CharKey(code: int) | RangeKey(from: int, to: int)

  function KeyOf(item: SetItem): Key
    requires IsFlat(item)
  {
    match item
    case ItemChar(c) => CharKey(c)
    case ItemRange(f, t) => RangeKey(f, t)
  }

  /** The keys of a flat element list, in order. */
  function Keys(items: seq<SetItem>): (r: seq<Key>)
    requires AllFlat(items)
    ensures |r| == |items|
    ensures forall i :: 0 <= i < |items| ==> r[i] == KeyOf(items[i])
  {
    seq(|items|, i requires 0 <= i < |items| => KeyOf(items[i]))
  }

  /** No two elements of the list share a key. */
  predicate DistinctKeys(items: seq<SetItem>)
    requires AllFlat(items)
  {
    forall i, j :: 0 <= i < j < |items| ==> KeyOf(items[i]) != KeyOf(items[j])
  }

  /** Every RANGE of the list is non-empty. */
  predicate RangesAscending(items: seq<SetItem>) {
    forall i :: 0 <= i < |items| && items[i].ItemRange? ==> items[i].from <= items[i].to
  }

  /** A lookup table: the keys present, and the number of elements. */
  datatype Lookup = Lookup(keys: set<Key>, len: nat)

  function LookupOf(items: seq<SetItem>): (r: Lookup)
    requires AllFlat(items)
    ensures r.len == |items|
    ensures forall k :: k in r.keys <==> k in Keys(items)
  {
    Lookup(set k | k in Keys(items), |items|)
  }

  /** The four element lists have no nested SET, no empty RANGE and no
      repeated key, so the lookup tables built from them are exact. */
  lemma PredefinedListsWellFormed()
    ensures AllFlat(INTS) && DistinctKeys(INTS) && RangesAscending(INTS)
    ensures AllFlat(WORDS) && DistinctKeys(WORDS) && RangesAscending(WORDS)
    ensures AllFlat(WHITESPACE) && DistinctKeys(WHITESPACE) && RangesAscending(WHITESPACE)
    ensures AllFlat(NOTANYCHAR) && DistinctKeys(NOTANYCHAR) && RangesAscending(NOTANYCHAR)
  {
    IntsWellFormed();
    WordsWellFormed();
    WhitespaceWellFormed();
    NotAnyCharWellFormed();
  }

  /** The four lists hold only CHARs and RANGEs. */
  lemma PredefinedListsFlat()
    ensures AllFlat(INTS) && AllFlat(WORDS) && AllFlat(WHITESPACE) && AllFlat(NOTANYCHAR)
  {
  }

  lemma IntsWellFormed()
    ensures AllFlat(INTS) && DistinctKeys(INTS) && RangesAscending(INTS)
  {
  }

  lemma WordsWellFormed()
    ensures AllFlat(WORDS) && DistinctKeys(WORDS) && RangesAscending(WORDS)
  {
  }

  lemma WhitespaceWellFormed()
    ensures AllFlat(WHITESPACE) && DistinctKeys(WHITESPACE) && RangesAscending(WHITESPACE)
  {
    AscendingDistinct(WHITESPACE);
  }

  /** The smallest character an element stands for. */
  function Low(item: SetItem): int
    requires IsFlat(item)
  {
    match item
    case ItemChar(c) => c
    case ItemRange(f, _) => f
  }

  /** A list whose elements start at strictly increasing characters has no
      repeated key. */
  lemma AscendingDistinct(items: seq<SetItem>)
    requires AllFlat(items)
    requires forall i :: 0 <= i < |items| - 1 ==> Low(items[i]) < Low(items[i + 1])
    ensures DistinctKeys(items)
  {
    forall i, j | 0 <= i < j < |items|
      ensures KeyOf(items[i]) != KeyOf(items[j])
    {
      AscendingChain(items, i, j);
    }
  }

  lemma {:induction false} AscendingChain(items: seq<SetItem>, i: nat, j: nat)
    requires AllFlat(items) && i < j < |items|
    requires forall k :: 0 <= k < |items| - 1 ==> Low(items[k]) < Low(items[k + 1])
    ensures Low(items[i]) < Low(items[j])
    decreases j - i
  {
    if i + 1 < j {
      AscendingChain(items, i + 1, j);
    }
  }

  lemma NotAnyCharWellFormed()
    ensures AllFlat(NOTANYCHAR) && DistinctKeys(NOTANYCHAR) && RangesAscending(NOTANYCHAR)
  {
  }

  /** The SET tokens of each class and its negation share their element list
      and differ only in the negation flag; `.` is the negated line-terminator
      list; the whitespace list has fourteen CHARs and one RANGE. */
  lemma PredefinedTokens()
    ensures Ints().items == NotInts().items == [ItemRange(48, 57)]
    ensures !Ints().negated && NotInts().negated
    ensures Words().items == NotWords().items
      == [ItemChar(95), ItemRange(97, 122), ItemRange(65, 90), ItemRange(48, 57)]
    ensures !Words().negated && NotWords().negated
    ensures Whitespace().items == NotWhitespace().items && |Whitespace().items| == 15
    ensures !Whitespace().negated && NotWhitespace().negated
    ensures forall i :: 0 <= i < 15 && i != 8 ==> WHITESPACE[i].ItemChar?
    ensures WHITESPACE[8] == ItemRange(8192, 8202)
    ensures AnyChar() == Set([ItemChar(10), ItemChar(13), ItemChar(8232), ItemChar(8233)], true)
  {
  }
}
