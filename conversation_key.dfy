/**
 * The conversation key of the send route: the two participant ids, sorted
 * with JavaScript's default string order and joined with '-'
 * (`[sender, receiver].sort().join("-")`).
 */
module ConversationKey {
  import opened Results
  import opened JsText

  /** The two ids in the order Array.prototype.sort puts them. */
  function SortPair(a: string, b: string): (p: (string, string))
    ensures multiset{p.0, p.1} == multiset{a, b}
    ensures LexLeq(p.0, p.1)
  {
    LexLeqTotal(a, b);
    if LexLeq(a, b) then (a, b) else (b, a)
  }

  /** `[a, b].sort().join("-")`. */
  function Key(a: string, b: string): (k: string)
    ensures (k == a + "-" + b && LexLeq(a, b)) || (k == b + "-" + a && LexLeq(b, a))
  {
    var p := SortPair(a, b);
    p.0 + "-" + p.1
  }

  /** The key does not depend on who sends: the lookup of the "other permutation" finds the same key. */
  lemma KeyCommutes(a: string, b: string)
    ensures Key(a, b) == Key(b, a)
  {
    LexLeqTotal(a, b);
    if LexLeq(a, b) && LexLeq(b, a) {
      LexLeqAntisymmetric(a, b);
    }
  }

  /** Splits a key at its first '-': the inverse of joining two '-'-free ids. */
  function Participants(k: string): (r: Option<(string, string)>)
    ensures r.None? <==> '-' !in k
    ensures r.Some? ==> '-' !in r.value.0 && k == r.value.0 + "-" + r.value.1
  {
    if k == [] then None
    else if k[0] == '-' then Some(([], k[1..]))
    else match Participants(k[1..])
      case None => None
      case Some(p) => Some(([k[0]] + p.0, p.1))
  }

  /** Splitting "x-y" at its first dash gives back x and y when x has no dash. */
  lemma {:induction false} ParticipantsOfJoin(x: string, y: string)
    requires '-' !in x
    ensures Participants(x + "-" + y) == Some((x, y))
  {
    if x != [] {
      ParticipantsOfJoin(x[1..], y);
      assert (x + "-" + y)[1..] == x[1..] + "-" + y;
      assert [x[0]] + x[1..] == x;
    }
  }

  /** Round trip: the key of two '-'-free ids splits back into the sorted pair. */
  lemma KeyParticipants(a: string, b: string)
    requires '-' !in a && '-' !in b
    ensures Participants(Key(a, b)) == Some(SortPair(a, b))
  {
    var p := SortPair(a, b);
    assert p.0 == a || p.0 == b;
    ParticipantsOfJoin(p.0, p.1);
  }

  /** With '-'-free ids, equal keys come only from the same unordered pair. */
  lemma KeyInjective(a: string, b: string, c: string, d: string)
    requires '-' !in a && '-' !in b && '-' !in c && '-' !in d
    requires Key(a, b) == Key(c, d)
    ensures (a == c && b == d) || (a == d && b == c)
  {
    KeyParticipants(a, b);
    KeyParticipants(c, d);
    var p, q := SortPair(a, b), SortPair(c, d);
    assert p == q;
    assert multiset{a, b} == multiset{c, d};
    assert a in multiset{c, d};
    if a == c {
      assert multiset{a, b} - multiset{a} == multiset{c, d} - multiset{c};
      assert b in multiset{d};
    } else {
      assert a == d;
      assert multiset{a, b} - multiset{a} == multiset{c, d} - multiset{d};
      assert b in multiset{c};
    }
  }

  /** Without the '-'-free restriction two different pairs can share a key. */
  lemma KeyAmbiguousWithDashes()
    ensures Key("a", "b-c") == Key("a-b", "c")
  {
    assert LexLeq("a", "b-c");
    assert LexLeq("a-b", "c");
    assert "a" + "-" + "b-c" == "a-b" + "-" + "c";
  }
}
