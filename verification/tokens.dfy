/** The regex token tree the tokenizer hands to the generator and the
    reconstructor: one constructor per type tag of `types.mjs`, plus
    `Unknown` for any other tag value a hand-built tree might carry. */
module Tokens {

  /** Upper bound of a repetition: a number, or JavaScript's `Infinity`. */
  datatype Bound = Finite(n: int) | Infinity

  /** An element of a SET: a CHAR, a RANGE (both ends inclusive) or a nested SET. */
  datatype SetItem =
    | ItemChar(code: int)
    | ItemRange(from: int, to: int)
    | ItemSet(items: seq<SetItem>, negated: bool)

  /** One alternative of an `options` list: a stack of tokens to concatenate. */
  datatype Branch = Branch(stack: seq<Token>)

  /** What a ROOT or GROUP holds: `options` (alternation), `stack`
      (concatenation), or neither (a malformed node). */
  datatype Body =
    | Options(options: seq<Branch>)
    | Stack(stack: seq<Token>)
    | NoBody

  /** A token. A GROUP's `name` is "" when it has none: the source only
      tests it for truthiness, and the empty string is falsy. */
  datatype Token =
    | Root(body: Body)
    | Group(body: Body, remember: bool, name: string, followedBy: bool, notFollowedBy: bool)
    | Position(marker: string)
    | Set(items: seq<SetItem>, negated: bool)
    | Range(from: int, to: int)
    | Repetition(child: Token, min: int, max: Bound)
    | Reference(index: int)
    | Char(code: int)
    | Unknown(tag: int)

  /** A set element other than a nested SET. */
  predicate IsFlat(item: SetItem) {
    !item.ItemSet?
  }

  predicate AllFlat(items: seq<SetItem>) {
    forall i :: 0 <= i < |items| ==> IsFlat(items[i])
  }

  /** A stack made only of CHAR tokens: a literal. */
  predicate AllChars(ts: seq<Token>) {
    forall i :: 0 <= i < |ts| ==> ts[i].Char?
  }

  /** The codes of a stack of CHAR tokens. */
  function Codes(ts: seq<Token>): (r: seq<int>)
    requires AllChars(ts)
    ensures |r| == |ts|
    ensures forall i :: 0 <= i < |ts| ==> r[i] == ts[i].code
  {
    seq(|ts|, i requires 0 <= i < |ts| => ts[i].code)
  }
}
