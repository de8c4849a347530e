/** The Fiat-Shamir transcript: a log of absorbed items, and challenges that
    are an arbitrary function of the log so far. */
module Transcripts {
  import opened Fields

  datatype Item =
    | Label(name: string)
    | LabelWithCount(name: string, count: nat)
    | Scalar(bytes: int)
    | Element(bytes: int)
    | Squeeze

  type Oracle = seq<Item> -> int

  /** A labelled list of scalars, each by its canonical encoding. */
  function ScalarItems(f: Field, name: string, values: seq<int>): seq<Item> {
    [LabelWithCount(name, |values|)] + seq(|values|, i requires 0 <= i < |values| => Scalar(f.red(values[i])))
  }

  /** A labelled list of commitments. */
  function ElementItems(f: Field, name: string, values: seq<int>): seq<Item> {
    [LabelWithCount(name, |values|)] + seq(|values|, i requires 0 <= i < |values| => Element(f.red(values[i])))
  }

  /** `n` challenges in a row. */
  function Challenges(oracle: Oracle, log: seq<Item>, n: nat): (c: seq<int>)
    ensures |c| == n
  {
    if n == 0 then [] else Challenges(oracle, log, n - 1) + [oracle(Squeezed(log, n - 1))]
  }

  function Squeezed(log: seq<Item>, n: nat): seq<Item> {
    if n == 0 then log else Squeezed(log, n - 1) + [Squeeze]
  }

  class Transcript {
    const oracle: Oracle
    var log: seq<Item>

    constructor (oracle: Oracle)
      ensures log == [] && this.oracle == oracle
    {
      this.oracle := oracle;
      log := [];
    }

    method Append(items: seq<Item>)
      modifies this
      ensures log == old(log) + items
    {
      log := log + items;
    }

    method Challenge() returns (c: int)
      modifies this
      ensures c == oracle(old(log)) && log == old(log) + [Squeeze]
    {
      c := oracle(log);
      log := log + [Squeeze];
    }

    method ChallengeVector(n: nat) returns (c: seq<int>)
      modifies this
      ensures c == Challenges(oracle, old(log), n) && log == Squeezed(old(log), n)
    {
      c := [];
      for i := 0 to n
        invariant c == Challenges(oracle, old(log), i) && log == Squeezed(old(log), i)
      {
        var next := Challenge();
        c := c + [next];
      }
    }
  }
}
