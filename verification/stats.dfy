/** Reference definitions shared by the aggregator and the downsampler: the
    finite values of a series, their sum, extremes and squared deviation, and
    the JavaScript-style running min/max that the source's loops compute. */
module Stats {
  import opened JsMath

  /** The finite entries of `s`, as reals, in order (the `Number.isFinite` filter). */
  function Finites(s: seq<Num>): (r: seq<real>)
    ensures |r| <= |s|
  {
    if |s| == 0 then []
    else Finites(s[..|s| - 1]) + (if IsFinite(s[|s| - 1]) then [s[|s| - 1].v] else [])
  }

  lemma {:induction false} FinitesAppend(s: seq<Num>, t: seq<Num>)
    ensures Finites(s + t) == Finites(s) + Finites(t)
    decreases |t|
  {
    if |t| == 0 {
      assert s + t == s;
    } else {
      assert (s + t)[..|s + t| - 1] == s + t[..|t| - 1];
      FinitesAppend(s, t[..|t| - 1]);
    }
  }

  /** Every finite entry of `s` shows up among `Finites(s)`, and nothing else does. */
  lemma {:induction false} FinitesMembers(s: seq<Num>)
    ensures forall i :: 0 <= i < |s| && IsFinite(s[i]) ==> s[i].v in Finites(s)
    ensures forall r :: r in Finites(s) ==> exists i :: 0 <= i < |s| && s[i] == Fin(r)
    decreases |s|
  {
    if |s| > 0 {
      var p := s[..|s| - 1];
      FinitesMembers(p);
      forall r | r in Finites(s)
        ensures exists i :: 0 <= i < |s| && s[i] == Fin(r)
      {
        if r in Finites(p) {
          var i :| 0 <= i < |p| && p[i] == Fin(r);
          assert s[i] == Fin(r);
        } else {
          assert s[|s| - 1] == Fin(r);
        }
      }
      forall i | 0 <= i < |s| && IsFinite(s[i])
        ensures s[i].v in Finites(s)
      {
        if i < |s| - 1 {
          assert p[i] == s[i];
        }
      }
    }
  }

  /** A finite entry lies between the extremes of the finite entries. */
  lemma FiniteBetweenExtremes(s: seq<Num>, k: int)
    requires 0 <= k < |s| && IsFinite(s[k])
    ensures |Finites(s)| > 0
    ensures SeqMin(Finites(s)) <= s[k].v <= SeqMax(Finites(s))
  {
    FinitesMembers(s);
    var f := Finites(s);
    assert s[k].v in f;
    var m :| 0 <= m < |f| && f[m] == s[k].v;
  }

  /** No entry of `s` is finite. */
  lemma {:induction false} NoFinites(s: seq<Num>)
    requires forall i :: 0 <= i < |s| ==> !IsFinite(s[i])
    ensures Finites(s) == []
    decreases |s|
  {
    if |s| > 0 {
      NoFinites(s[..|s| - 1]);
    }
  }

  /** Every entry of `s` is finite. */
  lemma {:induction false} AllFinites(s: seq<Num>)
    requires forall i :: 0 <= i < |s| ==> IsFinite(s[i])
    ensures |Finites(s)| == |s|
    decreases |s|
  {
    if |s| > 0 {
      AllFinites(s[..|s| - 1]);
    }
  }

  /** A column of stored doubles seen as JavaScript numbers. */
  function Fins(s: seq<real>): (r: seq<Num>)
    ensures |r| == |s| && forall k :: 0 <= k < |s| ==> r[k] == Fin(s[k])
  {
    seq(|s|, k requires 0 <= k < |s| => Fin(s[k]))
  }

  /** Filtering a column of finite numbers gives the column back. */
  lemma {:induction false} FinitesOfFins(s: seq<real>)
    ensures Finites(Fins(s)) == s
    decreases |s|
  {
    if |s| > 0 {
      var p := s[..|s| - 1];
      assert Fins(s)[..|s| - 1] == Fins(p);
      FinitesOfFins(p);
      assert p + [s[|s| - 1]] == s;
    }
  }

  function Sum(s: seq<real>): real {
    if |s| == 0 then 0.0 else Sum(s[..|s| - 1]) + s[|s| - 1]
  }

  /** The least element of a non-empty sequence. */
  function SeqMin(s: seq<real>): (m: real)
    requires |s| > 0
    ensures forall i :: 0 <= i < |s| ==> m <= s[i]
    ensures m in s
  {
    if |s| == 1 then s[0]
    else
      var p := s[..|s| - 1];
      assert forall i :: 0 <= i < |p| ==> p[i] == s[i];
      MinR(SeqMin(p), s[|s| - 1])
  }

  /** The greatest element of a non-empty sequence. */
  function SeqMax(s: seq<real>): (m: real)
    requires |s| > 0
    ensures forall i :: 0 <= i < |s| ==> s[i] <= m
    ensures m in s
  {
    if |s| == 1 then s[0]
    else
      var p := s[..|s| - 1];
      assert forall i :: 0 <= i < |p| ==> p[i] == s[i];
      MaxR(SeqMax(p), s[|s| - 1])
  }

  function Mean(s: seq<real>): real
    requires |s| > 0
  {
    Sum(s) / (|s| as real)
  }

  function Square(d: real): (r: real)
    ensures r >= 0.0
  {
    if d >= 0.0 then d * d else (-d) * (-d)
  }

  lemma SquareIsProduct(d: real)
    ensures Square(d) == d * d
  {
  }

  /** The sum of squared deviations from `a`. */
  function SumSqDiff(s: seq<real>, a: real): (r: real)
    ensures r >= 0.0
  {
    if |s| == 0 then 0.0
    else SumSqDiff(s[..|s| - 1], a) + Square(s[|s| - 1] - a)
  }

  lemma {:induction false} SumBetweenExtremes(s: seq<real>)
    requires |s| > 0
    ensures Bracketed(|s| as real, SeqMin(s), Sum(s), SeqMax(s))
    decreases |s|
  {
    if |s| == 1 {
      assert Sum(s) == Sum(s[..0]) + s[0];
      assert SeqMin(s) == s[0];
      assert SeqMax(s) == s[0];
    } else {
      var p := s[..|s| - 1];
      var v := s[|s| - 1];
      SumBetweenExtremes(p);
      assert Sum(s) == Sum(p) + v;
      assert SeqMin(s) == MinR(SeqMin(p), v);
      assert SeqMax(s) == MaxR(SeqMax(p), v);
      StepBounds(|p| as real, Sum(p), SeqMin(p), SeqMax(p), v, SeqMin(s), SeqMax(s));
    }
  }

  /** `x` lies between `c` copies of `lo` and `c` copies of `hi`. */
  predicate Bracketed(c: real, lo: real, x: real, hi: real) {
    c * lo <= x <= c * hi
  }

  /** The arithmetic of one induction step of `SumBetweenExtremes`. */
  lemma StepBounds(k: real, sp: real, mp: real, xp: real, v: real, lo: real, hi: real)
    requires k >= 0.0 && Bracketed(k, mp, sp, xp)
    requires lo <= mp && lo <= v && xp <= hi && v <= hi
    ensures Bracketed(k + 1.0, lo, sp + v, hi)
  {
    assert k * lo <= k * mp;
    assert k * xp <= k * hi;
    assert (k + 1.0) * lo == k * lo + lo;
    assert (k + 1.0) * hi == k * hi + hi;
    assert k * mp <= sp <= k * xp;
    assert (k + 1.0) * lo <= sp + v;
    assert sp + v <= (k + 1.0) * hi;
  }

  /** The mean of a non-empty sequence lies between its extremes. */
  lemma MeanBetweenExtremes(s: seq<real>)
    requires |s| > 0
    ensures SeqMin(s) <= Mean(s) <= SeqMax(s)
  {
    SumBetweenExtremes(s);
    var c := |s| as real;
    DivBounds(Sum(s), c, SeqMin(s), SeqMax(s));
  }

  lemma DivBounds(x: real, c: real, lo: real, hi: real)
    requires c > 0.0 && Bracketed(c, lo, x, hi)
    ensures lo <= x / c <= hi
  {
    assert x / c * c == x;
  }

  /** One step of the source's running minimum: `if (v < mn) mn = v` for finite v. */
  function MinStep(m: Num, v: Num): Num {
    if IsFinite(v) && Less(v, m) then v else m
  }

  /** One step of the source's running maximum: `if (v > mx) mx = v` for finite v. */
  function MaxStep(m: Num, v: Num): Num {
    if IsFinite(v) && Less(m, v) then v else m
  }

  /** What a running minimum started from `init` holds after seeing the finite values `f`. */
  function MinOutcome(init: Num, f: seq<real>): Num {
    if f == [] then init
    else match init
      case NaN => NaN
      case NegInf => NegInf
      case PosInf => Fin(SeqMin(f))
      case Fin(a) => Fin(MinR(a, SeqMin(f)))
  }

  /** What a running maximum started from `init` holds after seeing the finite values `f`. */
  function MaxOutcome(init: Num, f: seq<real>): Num {
    if f == [] then init
    else match init
      case NaN => NaN
      case PosInf => PosInf
      case NegInf => Fin(SeqMax(f))
      case Fin(a) => Fin(MaxR(a, SeqMax(f)))
  }

  lemma MinOutcomeStep(init: Num, f: seq<real>, v: real)
    ensures MinOutcome(init, f + [v]) == MinStep(MinOutcome(init, f), Fin(v))
  {
    if f != [] {
      assert (f + [v])[..|f|] == f;
    }
  }

  lemma MaxOutcomeStep(init: Num, f: seq<real>, v: real)
    ensures MaxOutcome(init, f + [v]) == MaxStep(MaxOutcome(init, f), Fin(v))
  {
    if f != [] {
      assert (f + [v])[..|f|] == f;
    }
  }

  /** The running minimum over `s` started from `init`, as a JavaScript loop
      computes it. Starting from +Infinity or a finite value it ends on the
      least finite entry; a NaN or -Infinity start is never replaced, and with
      no finite entry the start value survives. */
  function MinFold(init: Num, s: seq<Num>): (r: Num)
    ensures r == MinOutcome(init, Finites(s))
  {
    if |s| == 0 then init
    else
      MinFoldStep(init, s);
      MinStep(MinFold(init, s[..|s| - 1]), s[|s| - 1])
  }


  /** The running maximum over `s` started from `init`; the mirror of `MinFold`. */
  function MaxFold(init: Num, s: seq<Num>): (r: Num)
    ensures r == MaxOutcome(init, Finites(s))
  {
    if |s| == 0 then init
    else
      MaxFoldStep(init, s);
      MaxStep(MaxFold(init, s[..|s| - 1]), s[|s| - 1])
  }


  /** How the outcome changes when the last entry of `s` is taken in. */
  lemma MinFoldStep(init: Num, s: seq<Num>)
    requires |s| > 0
    ensures MinOutcome(init, Finites(s)) == MinStep(MinOutcome(init, Finites(s[..|s| - 1])), s[|s| - 1])
  {
    var p := s[..|s| - 1];
    var last := s[|s| - 1];
    var f := Finites(p);
    if IsFinite(last) {
      assert Finites(s) == f + [last.v];
      assert last == Fin(last.v);
      MinOutcomeStep(init, f, last.v);
    } else {
      assert Finites(s) == f by {
        assert f + [] == f;
      }
    }
  }

  /** How the outcome changes when the last entry of `s` is taken in. */
  lemma MaxFoldStep(init: Num, s: seq<Num>)
    requires |s| > 0
    ensures MaxOutcome(init, Finites(s)) == MaxStep(MaxOutcome(init, Finites(s[..|s| - 1])), s[|s| - 1])
  {
    var p := s[..|s| - 1];
    var last := s[|s| - 1];
    var f := Finites(p);
    if IsFinite(last) {
      assert Finites(s) == f + [last.v];
      assert last == Fin(last.v);
      MaxOutcomeStep(init, f, last.v);
    } else {
      assert Finites(s) == f by {
        assert f + [] == f;
      }
    }
  }

  lemma SumSnoc(f: seq<real>, v: real)
    ensures Sum(f + [v]) == Sum(f) + v
  {
    assert (f + [v])[..|f|] == f;
  }

  lemma SumSqDiffSnoc(f: seq<real>, v: real, a: real)
    ensures SumSqDiff(f + [v], a) == SumSqDiff(f, a) + Square(v - a)
  {
    assert (f + [v])[..|f|] == f;
  }
}
