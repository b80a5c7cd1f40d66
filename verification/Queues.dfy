/** Queues of connections, as the pools keep them. */
module Queues {

  /** A connection is known by its number. */
  type Conn = nat

  function Without(cs: seq<Conn>, c: Conn): (r: seq<Conn>)
    ensures |r| == if c in cs then |cs| - 1 else |cs|
  {
    if cs == [] then [] else if cs[0] == c then cs[1..] else [cs[0]] + Without(cs[1..], c)
  }

  /** How often `c` is in a queue. */
  function Times(cs: seq<Conn>, c: Conn): nat {
    if cs == [] then 0 else (if cs[0] == c then 1 else 0) + Times(cs[1..], c)
  }

  function Members(cs: seq<Conn>): set<Conn> {
    if cs == [] then {} else {cs[0]} + Members(cs[1..])
  }

  lemma {:induction false} TimesJoin(a: seq<Conn>, b: seq<Conn>, c: Conn)
    ensures Times(a + b, c) == Times(a, c) + Times(b, c)
  {
    if a == [] {
      assert a + b == b;
    } else {
      assert (a + b)[1..] == a[1..] + b;
      TimesJoin(a[1..], b, c);
    }
  }

  lemma {:induction false} TimesWithout(cs: seq<Conn>, x: Conn, c: Conn)
    ensures Times(Without(cs, x), c) == Times(cs, c) - if x == c && x in cs then 1 else 0
    ensures c in cs <==> Times(cs, c) > 0
  {
    if cs != [] {
      TimesWithout(cs[1..], x, c);
      assert ([cs[0]] + Without(cs[1..], x))[1..] == Without(cs[1..], x);
    }
  }

  lemma {:induction false} TimesOfMembers(cs: seq<Conn>, c: Conn)
    ensures c in Members(cs) <==> Times(cs, c) > 0
  {
    if cs != [] {
      TimesOfMembers(cs[1..], c);
    }
  }

  lemma {:induction false} WithoutOne(cs: seq<Conn>, c: Conn)
    ensures multiset(Without(cs, c)) == multiset(cs) - multiset{c}
  {
    if cs != [] {
      assert cs == [cs[0]] + cs[1..];
      WithoutOne(cs[1..], c);
    }
  }
}
