// Facts about sequences.
module Sequences {

  lemma Regroup<T>(a: seq<T>, b: seq<T>, c: seq<T>)
    ensures (a + b) + c == a + (b + c)
  {
  }

  lemma AppendNothing<T>(a: seq<T>)
    ensures a + [] == a
  {
  }

  function Mapped<A, B>(f: A -> B, s: seq<A>): seq<B> {
    seq(|s|, i requires 0 <= i < |s| => f(s[i]))
  }

  lemma MappedConcat<A, B>(f: A -> B, a: seq<A>, b: seq<A>)
    ensures Mapped(f, a + b) == Mapped(f, a) + Mapped(f, b)
  {
  }

  lemma MappedGrows<A, B>(f: A -> B, s: seq<A>, n: nat)
    requires n < |s|
    ensures Mapped(f, s[..n + 1]) == Mapped(f, s[..n]) + [f(s[n])]
  {
  }

  lemma MappedFirst<A, B>(f: A -> B, s: seq<A>)
    requires s != []
    ensures |Mapped(f, s)| == |s| && Mapped(f, s)[0] == f(s[0]) && Mapped(f, s)[1..] == Mapped(f, s[1..])
  {
  }

  lemma MappedSame<A, B>(f: A -> B, g: A -> B, s: seq<A>)
    requires forall i :: 0 <= i < |s| ==> f(s[i]) == g(s[i])
    ensures Mapped(f, s) == Mapped(g, s)
  {
  }
}
