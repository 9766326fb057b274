/** Lists of tagged half-open intervals, and cutting a range out of them. Both the regions
    of an address space and its file mappings are such lists. */
module Spans {

  datatype Span<T> = Span(start: int, length: int, tag: T)

  function End<T>(s: Span<T>): int {
    s.start + s.length
  }

  ghost predicate In<T>(s: Span<T>, x: int) {
    s.start <= x < End(s)
  }

  predicate Meets<T>(s: Span<T>, lo: int, hi: int) {
    lo < End(s) && s.start < hi
  }

  ghost predicate Apart<T>(s: Span<T>, t: Span<T>) {
    End(s) <= t.start || End(t) <= s.start
  }

  /** Non-empty and pairwise disjoint. */
  ghost predicate Tidy<T>(ss: seq<Span<T>>) {
    && (forall i :: 0 <= i < |ss| ==> ss[i].length > 0)
    && (forall i, j :: 0 <= i < j < |ss| ==> Apart(ss[i], ss[j]))
  }

  ghost predicate Covers<T>(ss: seq<Span<T>>, x: int, tag: T) {
    exists i :: 0 <= i < |ss| && In(ss[i], x) && ss[i].tag == tag
  }

  lemma CoversAppend<T>(a: seq<Span<T>>, b: seq<Span<T>>, x: int, tag: T)
    ensures Covers(a + b, x, tag) <==> Covers(a, x, tag) || Covers(b, x, tag)
  {
    if i :| 0 <= i < |a| && In(a[i], x) && a[i].tag == tag {
      assert (a + b)[i] == a[i];
    }
    if i :| 0 <= i < |b| && In(b[i], x) && b[i].tag == tag {
      assert (a + b)[|a| + i] == b[i];
    }
  }

  // ---- cutting ---------------------------------------------------------------------

  /** What is left of `s` outside [lo, hi), if its tag is one to be cut. */
  function Pieces<T>(s: Span<T>, lo: int, hi: int, cut: T -> bool): seq<Span<T>> {
    if !cut(s.tag) || !Meets(s, lo, hi) then [s]
    else
      (if s.start < lo then [Span(s.start, lo - s.start, s.tag)] else [])
      + (if hi < End(s) then [Span(hi, End(s) - hi, s.tag)] else [])
  }

  ghost function Cut<T>(ss: seq<Span<T>>, lo: int, hi: int, cut: T -> bool): seq<Span<T>> {
    if ss == [] then [] else Cut(ss[..|ss| - 1], lo, hi, cut) + Pieces(ss[|ss| - 1], lo, hi, cut)
  }

  lemma PiecesCover<T>(s: Span<T>, lo: int, hi: int, cut: T -> bool, x: int, tag: T)
    requires s.length > 0 && lo < hi
    ensures Covers(Pieces(s, lo, hi, cut), x, tag) <==> In(s, x) && s.tag == tag && !(cut(tag) && lo <= x < hi)
  {
    var ps := Pieces(s, lo, hi, cut);
    if In(s, x) && s.tag == tag && !(cut(tag) && lo <= x < hi) {
      if !cut(s.tag) || !Meets(s, lo, hi) {
        assert In(ps[0], x);
      } else if x < lo {
        assert In(ps[0], x);
      } else {
        assert In(ps[|ps| - 1], x);
      }
    }
  }

  /** Cutting removes exactly the points of the range under the tags to be cut. */
  lemma {:induction false} CutCovers<T>(ss: seq<Span<T>>, lo: int, hi: int, cut: T -> bool, x: int, tag: T)
    requires (forall i :: 0 <= i < |ss| ==> ss[i].length > 0) && lo < hi
    ensures Covers(Cut(ss, lo, hi, cut), x, tag) <==> Covers(ss, x, tag) && !(cut(tag) && lo <= x < hi)
  {
    if ss != [] {
      var front, last := ss[..|ss| - 1], ss[|ss| - 1];
      CutCovers(front, lo, hi, cut, x, tag);
      PiecesCover(last, lo, hi, cut, x, tag);
      CoversAppend(Cut(front, lo, hi, cut), Pieces(last, lo, hi, cut), x, tag);
      assert ss == front + [last];
      CoversAppend(front, [last], x, tag);
      assert Covers([last], x, tag) <==> In(last, x) && last.tag == tag by {
        assert [last][0] == last;
      }
    }
  }

  lemma {:induction false} CutNothing<T>(ss: seq<Span<T>>, lo: int, hi: int, cut: T -> bool)
    requires forall i :: 0 <= i < |ss| ==> !Meets(ss[i], lo, hi)
    ensures Cut(ss, lo, hi, cut) == ss
  {
    if ss != [] {
      CutNothing(ss[..|ss| - 1], lo, hi, cut);
    }
  }

  lemma {:induction false} CutOther<T>(ss: seq<Span<T>>, lo: int, hi: int, cut: T -> bool)
    requires forall i :: 0 <= i < |ss| ==> !cut(ss[i].tag)
    ensures Cut(ss, lo, hi, cut) == ss
  {
    if ss != [] {
      CutOther(ss[..|ss| - 1], lo, hi, cut);
    }
  }

  ghost predicate Inside<T>(p: Span<T>, s: Span<T>) {
    s.start <= p.start && End(p) <= End(s) && p.tag == s.tag
  }

  /** Every piece comes from some span of the list. */
  ghost predicate From<T>(ps: seq<Span<T>>, ss: seq<Span<T>>) {
    forall i :: 0 <= i < |ps| ==> exists j :: 0 <= j < |ss| && Inside(ps[i], ss[j])
  }

  lemma {:induction false} CutFrom<T>(ss: seq<Span<T>>, lo: int, hi: int, cut: T -> bool)
    ensures From(Cut(ss, lo, hi, cut), ss)
  {
    if ss != [] {
      var front, last := ss[..|ss| - 1], ss[|ss| - 1];
      CutFrom(front, lo, hi, cut);
      var ps := Cut(ss, lo, hi, cut);
      forall i | 0 <= i < |ps|
        ensures exists j :: 0 <= j < |ss| && Inside(ps[i], ss[j])
      {
        if i < |Cut(front, lo, hi, cut)| {
          var j :| 0 <= j < |front| && Inside(Cut(front, lo, hi, cut)[i], front[j]);
          assert Inside(ps[i], ss[j]);
        } else {
          assert Inside(ps[i], ss[|ss| - 1]);
        }
      }
    }
  }

  lemma {:induction false} CutTidy<T>(ss: seq<Span<T>>, lo: int, hi: int, cut: T -> bool)
    requires Tidy(ss) && lo < hi
    ensures Tidy(Cut(ss, lo, hi, cut))
  {
    if ss != [] {
      var front, last := ss[..|ss| - 1], ss[|ss| - 1];
      CutTidy(front, lo, hi, cut);
      CutFrom(front, lo, hi, cut);
      var a, b := Cut(front, lo, hi, cut), Pieces(last, lo, hi, cut);
      forall i, j | 0 <= i < j < |a + b|
        ensures Apart((a + b)[i], (a + b)[j])
      {
        if i < |a| <= j {
          var k :| 0 <= k < |front| && Inside(a[i], front[k]);
          assert Apart(ss[k], ss[|ss| - 1]);
          assert Inside(b[j - |a|], last);
        }
      }
    }
  }

  // ---- what is not cut -------------------------------------------------------------

  ghost function Rest<T>(ss: seq<Span<T>>, cut: T -> bool): seq<Span<T>> {
    if ss == [] then [] else Rest(ss[..|ss| - 1], cut) + if cut(ss[|ss| - 1].tag) then [] else [ss[|ss| - 1]]
  }

  lemma {:induction false} RestAppend<T>(a: seq<Span<T>>, b: seq<Span<T>>, cut: T -> bool)
    ensures Rest(a + b, cut) == Rest(a, cut) + Rest(b, cut)
  {
    if b == [] {
      assert a + b == a;
    } else {
      assert (a + b)[..|a + b| - 1] == a + b[..|b| - 1];
      RestAppend(a, b[..|b| - 1], cut);
    }
  }

  /** Spans under other tags stay as they are, in their order. */
  lemma {:induction false} CutKeepsRest<T>(ss: seq<Span<T>>, lo: int, hi: int, cut: T -> bool)
    ensures Rest(Cut(ss, lo, hi, cut), cut) == Rest(ss, cut)
  {
    if ss != [] {
      var front, last := ss[..|ss| - 1], ss[|ss| - 1];
      CutKeepsRest(front, lo, hi, cut);
      RestAppend(Cut(front, lo, hi, cut), Pieces(last, lo, hi, cut), cut);
      PiecesRest(last, lo, hi, cut);
    }
  }

  lemma PiecesRest<T>(s: Span<T>, lo: int, hi: int, cut: T -> bool)
    ensures Rest(Pieces(s, lo, hi, cut), cut) == if cut(s.tag) then [] else [s]
  {
    var ps := Pieces(s, lo, hi, cut);
    if |ps| == 1 {
      assert ps[..0] == [];
    } else if |ps| == 2 {
      assert ps[..1] == [ps[0]] && [ps[0]][..0] == [];
      assert Rest([ps[0]], cut) == Rest([ps[0]][..0], cut);
    }
  }

  // ---- adding ----------------------------------------------------------------------

  lemma TidyAppend<T>(ss: seq<Span<T>>, s: Span<T>)
    requires Tidy(ss) && s.length > 0
    requires forall i :: 0 <= i < |ss| ==> !Meets(ss[i], s.start, End(s))
    ensures Tidy(ss + [s])
  {
    forall i, j | 0 <= i < j < |ss + [s]|
      ensures Apart((ss + [s])[i], (ss + [s])[j])
    {
      assert j == |ss| ==> !Meets(ss[i], s.start, End(s));
    }
  }

  lemma CoversOne<T>(ss: seq<Span<T>>, s: Span<T>, x: int, tag: T)
    ensures Covers(ss + [s], x, tag) <==> Covers(ss, x, tag) || (In(s, x) && s.tag == tag)
  {
    CoversAppend(ss, [s], x, tag);
    assert Covers([s], x, tag) <==> In(s, x) && s.tag == tag by {
      assert [s][0] == s;
    }
  }
}
