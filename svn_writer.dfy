/**
 * The token stream that the protocol writer produces, and what it means for
 * that stream to be properly nested: every list that is opened is closed, and
 * no prefix closes more lists than it has opened.
 */
module SvnWriter {

  /**
   * One item the writer emits. `LockDesc` stands for a whole lock descriptor
   * as written by the lock command's helper; its field encoding is not modelled.
   */
  datatype Token<L> = ListBegin | ListEnd | Word(text: string) | LockDesc(lock: L)

  /** How a token changes the number of open lists. */
  function Delta<L>(t: Token<L>): int {
    match t
    case ListBegin => 1
    case ListEnd => -1
    case _ => 0
  }

  /** Lists opened minus lists closed in `ts`. */
  function Nesting<L>(ts: seq<Token<L>>): int {
    if ts == [] then 0 else Delta(ts[0]) + Nesting(ts[1..])
  }

  /** Balanced: no prefix closes a list it did not open, and the whole closes all it opens. */
  ghost predicate WellNested<L>(ts: seq<Token<L>>) {
    Nesting(ts) == 0 && forall k :: 0 <= k <= |ts| ==> Nesting(ts[..k]) >= 0
  }

  /** A run of atoms: words and lock descriptors, no list delimiters. */
  predicate Flat<L>(ts: seq<Token<L>>) {
    forall i :: 0 <= i < |ts| ==> !ts[i].ListBegin? && !ts[i].ListEnd?
  }

  /** The tokens of a list holding `items`. */
  function List<L>(items: seq<Token<L>>): seq<Token<L>> {
    [ListBegin] + items + [ListEnd]
  }

  lemma {:induction false} NestingConcat<L>(a: seq<Token<L>>, b: seq<Token<L>>)
    ensures Nesting(a + b) == Nesting(a) + Nesting(b)
  {
    if a == [] {
      assert a + b == b;
    } else {
      assert (a + b)[0] == a[0] && (a + b)[1..] == a[1..] + b;
      NestingConcat(a[1..], b);
    }
  }

  lemma {:induction false} FlatNesting<L>(ts: seq<Token<L>>)
    requires Flat(ts)
    ensures Nesting(ts) == 0
  {
    if ts != [] {
      FlatNesting(ts[1..]);
    }
  }

  /** A run of atoms is balanced, however much of it has been written. */
  lemma FlatWellNested<L>(ts: seq<Token<L>>)
    requires Flat(ts)
    ensures WellNested(ts)
  {
    FlatNesting(ts);
    forall k | 0 <= k <= |ts| ensures Nesting(ts[..k]) >= 0 {
      FlatNesting(ts[..k]);
    }
  }

  /** Writing one balanced stream after another keeps the output balanced. */
  lemma ConcatWellNested<L>(a: seq<Token<L>>, b: seq<Token<L>>)
    requires WellNested(a) && WellNested(b)
    ensures WellNested(a + b)
  {
    NestingConcat(a, b);
    forall k | 0 <= k <= |a + b| ensures Nesting((a + b)[..k]) >= 0 {
      if k <= |a| {
        assert (a + b)[..k] == a[..k];
      } else {
        assert (a + b)[..k] == a + b[..k - |a|];
        NestingConcat(a, b[..k - |a|]);
      }
    }
  }

  /** Wrapping balanced items in a list keeps them balanced. */
  lemma ListWellNested<L>(items: seq<Token<L>>)
    requires WellNested(items)
    ensures WellNested(List(items))
  {
    var ts := List(items);
    NestingConcat([ListBegin] + items, [ListEnd]);
    NestingConcat([ListBegin], items);
    forall k | 0 <= k <= |ts| ensures Nesting(ts[..k]) >= 0 {
      if k == 0 {
        assert ts[..k] == [];
      } else if k <= |items| + 1 {
        assert ts[..k] == [ListBegin] + items[..k - 1];
        NestingConcat([ListBegin], items[..k - 1]);
      } else {
        assert ts[..k] == ts;
      }
    }
  }

  /**
   * The protocol writer: an append-only buffer of tokens. Each method returns
   * the writer itself so that calls can be chained.
   */
  class Writer<L> {
    var tokens: seq<Token<L>>

    method ListBegin() returns (self: Writer<L>)
      modifies this
      ensures self == this
      ensures tokens == old(tokens) + [Token.ListBegin]
    {
      tokens := tokens + [Token.ListBegin];
      self := this;
    }

    method ListEnd() returns (self: Writer<L>)
      modifies this
      ensures self == this
      ensures tokens == old(tokens) + [Token.ListEnd]
    {
      tokens := tokens + [Token.ListEnd];
      self := this;
    }

    method Word(text: string) returns (self: Writer<L>)
      modifies this
      ensures self == this
      ensures tokens == old(tokens) + [Token.Word(text)]
    {
      tokens := tokens + [Token.Word(text)];
      self := this;
    }
  }
}
