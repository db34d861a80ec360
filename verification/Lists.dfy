/** `Blist.choose` (src/lib/blist.ml): the accumulator version with alternating reversals. */
module Lists {
  function Rev<T>(s: seq<T>): (r: seq<T>)
    ensures |r| == |s|
  {
    if s == [] then [] else Rev(s[1..]) + [s[0]]
  }

  // ---------- The simple version ----------

  function MapCons<T>(x: T, choices: seq<seq<T>>): (r: seq<seq<T>>)
    ensures |r| == |choices|
  {
    if choices == [] then [] else [[x] + choices[0]] + MapCons(x, choices[1..])
  }

  function Cross<T>(xs: seq<T>, choices: seq<seq<T>>): seq<seq<T>> {
    if xs == [] then [] else MapCons(xs[0], choices) + Cross(xs[1..], choices)
  }

  function ChooseSimple<T>(lol: seq<seq<T>>): seq<seq<T>> {
    if lol == [] then [[]] else Cross(lol[0], ChooseSimple(lol[1..]))
  }

  // ---------- The tail-recursive version ----------

  function Alternate<T>(r: bool, a: seq<seq<T>>, lol: seq<seq<T>>): seq<seq<T>>
    decreases |lol|
  {
    if lol == [] then a else Alternate(!r, [if r then Rev(lol[0]) else lol[0]] + a, lol[1..])
  }

  function PushAll<T>(t: seq<seq<T>>, e: T, ll: seq<seq<T>>): seq<seq<T>>
    decreases |ll|
  {
    if ll == [] then t else PushAll([[e] + ll[0]] + t, e, ll[1..])
  }

  function Extend<T>(tl: seq<seq<T>>, l: seq<T>, ll: seq<seq<T>>): seq<seq<T>>
    decreases |l|
  {
    if l == [] then tl else Extend(PushAll(tl, l[0], ll), l[1..], ll)
  }

  function ExtendAll<T>(ll: seq<seq<T>>, lol: seq<seq<T>>): seq<seq<T>>
    decreases |lol|
  {
    if lol == [] then ll else ExtendAll(Extend([], lol[0], ll), lol[1..])
  }

  function Choose<T>(lol: seq<seq<T>>): seq<seq<T>> {
    ExtendAll([[]], Alternate(true, [], lol))
  }

  // ---------- They agree ----------

  lemma {:induction false} RevAppend<T>(s: seq<T>, t: seq<T>)
    ensures Rev(s + t) == Rev(t) + Rev(s)
  {
    if s == [] {
      assert s + t == t;
    } else {
      RevAppend(s[1..], t);
      assert (s + t)[1..] == s[1..] + t;
    }
  }

  lemma {:induction false} RevRev<T>(s: seq<T>)
    ensures Rev(Rev(s)) == s
  {
    if s != [] {
      RevRev(s[1..]);
      RevAppend(Rev(s[1..]), [s[0]]);
      assert Rev([s[0]]) == [s[0]];
    }
  }

  lemma {:induction false} PushAllIs<T>(t: seq<seq<T>>, e: T, ll: seq<seq<T>>)
    ensures PushAll(t, e, ll) == Rev(MapCons(e, ll)) + t
    decreases |ll|
  {
    if ll != [] {
      PushAllIs([[e] + ll[0]] + t, e, ll[1..]);
    }
  }

  lemma {:induction false} ExtendIs<T>(tl: seq<seq<T>>, l: seq<T>, ll: seq<seq<T>>)
    ensures Extend(tl, l, ll) == Rev(Cross(l, ll)) + tl
    decreases |l|
  {
    if l != [] {
      PushAllIs(tl, l[0], ll);
      ExtendIs(PushAll(tl, l[0], ll), l[1..], ll);
      RevAppend(MapCons(l[0], ll), Cross(l[1..], ll));
    }
  }

  lemma {:induction false} MapConsAppend<T>(e: T, a: seq<seq<T>>, b: seq<seq<T>>)
    ensures MapCons(e, a + b) == MapCons(e, a) + MapCons(e, b)
  {
    if a == [] {
      assert a + b == b;
    } else {
      MapConsAppend(e, a[1..], b);
      assert (a + b)[1..] == a[1..] + b;
    }
  }

  lemma {:induction false} MapConsRev<T>(e: T, ll: seq<seq<T>>)
    ensures MapCons(e, Rev(ll)) == Rev(MapCons(e, ll))
  {
    if ll != [] {
      MapConsRev(e, ll[1..]);
      MapConsAppend(e, Rev(ll[1..]), [ll[0]]);
    }
  }

  lemma {:induction false} CrossAppend<T>(a: seq<T>, b: seq<T>, ll: seq<seq<T>>)
    ensures Cross(a + b, ll) == Cross(a, ll) + Cross(b, ll)
  {
    if a == [] {
      assert a + b == b;
    } else {
      CrossAppend(a[1..], b, ll);
      assert (a + b)[1..] == a[1..] + b;
    }
  }

  lemma {:induction false} CrossRev<T>(l: seq<T>, ll: seq<seq<T>>)
    ensures Cross(Rev(l), Rev(ll)) == Rev(Cross(l, ll))
  {
    if l != [] {
      CrossRev(l[1..], ll);
      CrossAppend(Rev(l[1..]), [l[0]], Rev(ll));
      MapConsRev(l[0], ll);
      assert Cross([l[0]], Rev(ll)) == MapCons(l[0], Rev(ll));
      RevAppend(MapCons(l[0], ll), Cross(l[1..], ll));
    }
  }

  /** Each alternation is undone by the reversal of the accumulating folds. */
  lemma {:induction false} AlternateCancels<T>(r: bool, a: seq<seq<T>>, lol: seq<seq<T>>)
    ensures ExtendAll([[]], Alternate(r, a, lol)) ==
              ExtendAll(if r then ChooseSimple(lol) else Rev(ChooseSimple(lol)), a)
    decreases |lol|
  {
    if lol == [] {
      var one: seq<seq<T>> := [[]];
      assert Rev(one) == one;
    } else {
      var l, rest := lol[0], ChooseSimple(lol[1..]);
      var x := if r then Rev(l) else l;
      var ll := if r then Rev(rest) else rest;
      AlternateCancels(!r, [x] + a, lol[1..]);
      assert ExtendAll(ll, [x] + a) == ExtendAll(Extend([], x, ll), a);
      ExtendIs([], x, ll);
      if r {
        CrossRev(l, rest);
        RevRev(Cross(l, rest));
      }
      assert Extend([], x, ll) == if r then ChooseSimple(lol) else Rev(ChooseSimple(lol));
    }
  }

  /** The fast version returns the same choices in the same order. */
  lemma ChooseIsSimple<T>(lol: seq<seq<T>>)
    ensures Choose(lol) == ChooseSimple(lol)
  {
    AlternateCancels(true, [], lol);
  }

  // ---------- What is chosen ----------

  lemma {:induction false} InMapCons<T>(e: T, ll: seq<seq<T>>, s: seq<T>)
    ensures s in MapCons(e, ll) <==> s != [] && s[0] == e && s[1..] in ll
  {
    if ll != [] {
      InMapCons(e, ll[1..], s);
      assert s == [e] + ll[0] <==> s != [] && s[0] == e && s[1..] == ll[0];
      assert ll == [ll[0]] + ll[1..];
    }
  }

  lemma {:induction false} InCross<T>(l: seq<T>, ll: seq<seq<T>>, s: seq<T>)
    ensures s in Cross(l, ll) <==> s != [] && s[0] in l && s[1..] in ll
  {
    if l != [] {
      InMapCons(l[0], ll, s);
      InCross(l[1..], ll, s);
      assert l == [l[0]] + l[1..];
    }
  }

  ghost predicate Selects<T>(s: seq<T>, lol: seq<seq<T>>) {
    |s| == |lol| && forall i :: 0 <= i < |s| ==> s[i] in lol[i]
  }

  /** Exactly the selections of one element from each list. */
  lemma {:induction false} ChooseSelects<T>(lol: seq<seq<T>>, s: seq<T>)
    ensures s in Choose(lol) <==> Selects(s, lol)
    decreases |lol|
  {
    ChooseIsSimple(lol);
    if lol != [] {
      InCross(lol[0], ChooseSimple(lol[1..]), s);
      if s != [] {
        ChooseSelects(lol[1..], s[1..]);
        ChooseIsSimple(lol[1..]);
        if Selects(s[1..], lol[1..]) && s[0] in lol[0] {
          forall i | 0 <= i < |s|
            ensures s[i] in lol[i]
          {
            if i > 0 {
              assert s[1..][i - 1] in lol[1..][i - 1];
            }
          }
        }
        if Selects(s, lol) {
          forall i | 0 <= i < |s| - 1
            ensures s[1..][i] in lol[1..][i]
          {
            assert s[i + 1] in lol[i + 1];
          }
        }
      }
    }
  }
}
