/** Whole runs of the armor reader. */
module ArmorRuns {
  import opened Options
  import opened Base64
  import opened ArmorReference
  import opened ArmorDecoder

  datatype Event = Event(len: nat, out: seq<byte>, lost: seq<byte>)

  /** States `vs` with a successful read between each two. */
  ghost predicate Run(vs: seq<View>, es: seq<Event>) {
    && |vs| == |es| + 1
    && forall i :: 0 <= i < |es| ==> Step(vs[i], es[i].len, vs[i + 1], es[i].out, es[i].lost)
  }

  function Delivered(es: seq<Event>): (r: seq<byte>) {
    if es == [] then [] else Delivered(es[..|es| - 1]) + es[|es| - 1].out
  }

  function LostCount(es: seq<Event>): (n: nat)
    ensures n == 0 <==> forall i :: 0 <= i < |es| ==> es[i].lost == []
  {
    if es == [] then 0 else LostCount(es[..|es| - 1]) + |es[|es| - 1].lost|
  }

  lemma RunShorter(vs: seq<View>, es: seq<Event>)
    requires Run(vs, es) && es != []
    ensures var n := |es| - 1;
            && Run(vs[..n + 1], es[..n]) && vs[..n + 1][0] == vs[0] && vs[..n + 1][n] == vs[n]
            && Step(vs[n], es[n].len, vs[n + 1], es[n].out, es[n].lost)
  {
    hide Step;
  }

  lemma RunSize(vs: seq<View>, es: seq<Event>)
    requires Run(vs, es)
    ensures |vs| == |es| + 1
  {
  }

  lemma RunLonger(vs: seq<View>, es: seq<Event>, w: View, e: Event)
    requires Run(vs, es) && Step(vs[|es|], e.len, w, e.out, e.lost)
    ensures Run(vs + [w], es + [e]) && Delivered(es + [e]) == Delivered(es) + e.out
  {
    hide Step;
    assert (es + [e])[..|es|] == es;
  }

  // ----- Conservation -----

  /** The decoding at the start is what was delivered, what was lost, and what is still to come. */
  lemma {:induction false} RunCounts(vs: seq<View>, es: seq<Event>)
    requires Run(vs, es) && Outcome(vs[0]).Some?
    ensures Outcome(vs[|es|]).Some?
    ensures |Outcome(vs[0]).value| == |Delivered(es)| + LostCount(es) + |Outcome(vs[|es|]).value|
    decreases |es|
  {
    hide Outcome, Step;
    if es != [] {
      var n := |es| - 1;
      RunShorter(vs, es);
      RunCounts(vs[..n + 1], es[..n]);
      StepOutcome(vs[n], es[n], vs[n + 1]);
    }
  }

  lemma StepOutcome(v: View, e: Event, w: View)
    requires Step(v, e.len, w, e.out, e.lost)
    ensures Outcome(v) == Prepend(e.out + e.lost, Outcome(w))
  {
    hide Outcome, LookAhead;
  }

  lemma {:induction false} RunConserves(vs: seq<View>, es: seq<Event>)
    requires Run(vs, es) && LostCount(es) == 0
    ensures Outcome(vs[0]) == Prepend(Delivered(es), Outcome(vs[|es|]))
    decreases |es|
  {
    hide Outcome, Step, Prepend;
    if es == [] {
      PrependEmpty(Outcome(vs[0]));
    } else {
      var n := |es| - 1;
      RunShorter(vs, es);
      RunConserves(vs[..n + 1], es[..n]);
      StepOutcome(vs[n], es[n], vs[n + 1]);
      assert es[n].out + [] == es[n].out;
      PrependPrepend(Delivered(es[..n]), es[n].out, Outcome(vs[n + 1]));
    }
  }

  lemma PrependEmpty(o: Option<seq<byte>>)
    ensures Prepend([], o) == o
  {
    if o.Some? {
      assert [] + o.value == o.value;
    }
  }

  /** No read that takes new input starts at a stale position and leaves bytes over. All of this is
      known before each read. */
  predicate Careful(vs: seq<View>, es: seq<Event>)
    requires |vs| == |es| + 1
  {
    forall i :: 0 <= i < |es| && !vs[i].eof ==> vs[i].stale == 0 || Leaves(vs[i], es[i].len) == 0
  }

  /** A run loses nothing exactly if it is careful. */
  lemma RunLossExact(vs: seq<View>, es: seq<Event>)
    requires Run(vs, es) && Outcome(vs[0]).Some?
    ensures Outcome(vs[0]) == Prepend(Delivered(es), Outcome(vs[|es|])) <==> Careful(vs, es)
  {
    hide Outcome, Step, Leaves;
    RunCounts(vs, es);
    forall i | 0 <= i < |es|
      ensures es[i].lost == [] <==> vs[i].eof || vs[i].stale == 0 || Leaves(vs[i], es[i].len) == 0
    {
      StepLoss(vs[i], es[i], vs[i + 1]);
    }
    if Careful(vs, es) {
      RunConserves(vs, es);
    }
  }

  lemma StepLoss(v: View, e: Event, w: View)
    requires Step(v, e.len, w, e.out, e.lost)
    ensures e.lost == [] <==> v.eof || v.stale == 0 || Leaves(v, e.len) == 0
  {
    hide Outcome, LookAhead, Leaves;
  }

  // ----- Runs without an exact drain -----

  /** Before the end of the data no read asks for exactly the bytes that are pending. */
  predicate NoExactDrain(vs: seq<View>, es: seq<Event>)
    requires |vs| == |es| + 1
  {
    forall i :: 0 <= i < |es| && !vs[i].eof && vs[i].pending != [] ==> es[i].len != |vs[i].pending|
  }

  /** Nothing is lost, repeated or reordered in such a run from a fresh position. */
  lemma {:induction false} RunDelivers(vs: seq<View>, es: seq<Event>)
    requires Run(vs, es) && NoExactDrain(vs, es) && !vs[0].eof && vs[0].stale == 0
    ensures Outcome(vs[0]) == Prepend(Delivered(es), Outcome(vs[|es|]))
    ensures !vs[|es|].eof ==> vs[|es|].stale == 0
    ensures LostCount(es) == 0
    decreases |es|
  {
    hide Outcome, Prepend, Step;
    if es != [] {
      var n := |es| - 1;
      RunShorter(vs, es);
      RunDelivers(vs[..n + 1], es[..n]);
      StaysFresh(vs[n], es[n], vs[n + 1]);
    }
    RunConserves(vs, es);
  }

  lemma StaysFresh(v: View, e: Event, w: View)
    requires Step(v, e.len, w, e.out, e.lost)
    requires !v.eof ==> v.stale == 0 && (v.pending == [] || e.len != |v.pending|)
    ensures e.lost == [] && (!w.eof ==> w.stale == 0)
  {
    hide Outcome, LookAhead;
  }

  /** The reader gets to a stale position exactly by such a drain. */
  lemma RunFreshExact(vs: seq<View>, es: seq<Event>)
    requires Run(vs, es) && !vs[0].eof && vs[0].stale == 0
    ensures (forall i :: 0 <= i <= |es| && !vs[i].eof ==> vs[i].stale == 0) <==> NoExactDrain(vs, es)
  {
    hide Step;
    if NoExactDrain(vs, es) {
      forall i | 0 <= i <= |es| && !vs[i].eof
        ensures vs[i].stale == 0
      {
        assert Run(vs[..i + 1], es[..i]);
        RunDelivers(vs[..i + 1], es[..i]);
      }
    } else {
      var i :| 0 <= i < |es| && !vs[i].eof && vs[i].pending != [] && es[i].len == |vs[i].pending|;
      DrainGoesStale(vs[i], es[i], vs[i + 1]);
    }
  }

  lemma DrainGoesStale(v: View, e: Event, w: View)
    requires Step(v, e.len, w, e.out, e.lost) && !v.eof && v.pending != [] && e.len == |v.pending|
    ensures !w.eof && (v.stale == 0 ==> w.stale > 0)
  {
    hide Outcome, LookAhead;
  }

  /** A text that ends in this read, with more left in it than is asked for, is cut short by every
      stale state. */
  lemma StaleReadLoses(v: View, e: Event, w: View)
    requires Step(v, e.len, w, e.out, e.lost) && !v.eof && w.eof && v.stale > 0
    requires Outcome(v).Some? && |Outcome(v).value| > e.len
    ensures e.lost != [] && |e.out + Outcome(w).value| < |Outcome(v).value|
  {
    hide Parse, LookAhead;
  }

  /** A run of reads of at least 3 bytes that ends with an empty one delivers all of the text. */
  lemma RunComplete(vs: seq<View>, es: seq<Event>)
    requires Run(vs, es) && NoExactDrain(vs, es) && !vs[0].eof && vs[0].stale == 0
    requires es != [] && es[|es| - 1].out == [] && es[|es| - 1].len >= 3
    ensures Outcome(vs[0]) == Some(Delivered(es))
  {
    hide Step, LookAhead;
    RunDelivers(vs, es);
    var n := |es| - 1;
    EmptyReadEnds(vs[n], es[n], vs[n + 1]);
    assert Delivered(es) + [] == Delivered(es);
  }

  lemma EmptyReadEnds(v: View, e: Event, w: View)
    requires Step(v, e.len, w, e.out, e.lost) && e.len >= 3 && e.out == []
    ensures Outcome(w) == Some([])
  {
    hide LookAhead, Parse;
  }

  /** The CRC context has been given each delivered byte once, in order; when the data ends it has
      been given the bytes still pending too, so what is compared is the CRC of the whole payload. */
  lemma {:induction false} RunCrc(vs: seq<View>, es: seq<Event>)
    requires Run(vs, es) && NoExactDrain(vs, es) && !vs[0].mode.noheaders
    requires !vs[0].eof && vs[0].stale == 0 && vs[0].fed == []
    requires forall i :: 0 <= i < |es| ==> !vs[i].eof
    ensures vs[|es|].mode == vs[0].mode
    ensures vs[|es|].fed == Delivered(es) + if vs[|es|].eof then vs[|es|].pending else []
    ensures vs[|es|].eof ==>
      Outcome(vs[0]) == Some(vs[|es|].fed) && vs[|es|].crc == CrcOf(vs[0].input, vs[0].mode)
    ensures !vs[|es|].eof ==> EndOf(vs[|es|].input) == EndOf(vs[0].input)
    decreases |es|
  {
    hide Parse, CloseCrc, EndOf, Step;
    if es != [] {
      var n := |es| - 1;
      RunShorter(vs, es);
      RunCrc(vs[..n + 1], es[..n]);
      RunDelivers(vs[..n + 1], es[..n]);
      RunDelivers(vs, es);
      StaysFresh(vs[n], es[n], vs[n + 1]);
      StepCrc(vs[n], es[n], vs[n + 1]);
      var d, o, p := Delivered(es[..n]), es[n].out, vs[n + 1].pending;
      assert d + o + ([] + p) == d + o + p && d + o + [] == d + o;
    }
  }

  lemma StepCrc(v: View, e: Event, w: View)
    requires Step(v, e.len, w, e.out, e.lost)
    ensures w.mode == v.mode && (v.eof ==> w.eof)
    ensures !v.eof ==> if w.eof then w.crc == CrcOf(v.input, v.mode) else EndOf(w.input) == EndOf(v.input)
    ensures !v.mode.noheaders && !v.eof ==> w.fed == v.fed + e.out + if w.eof then e.lost + w.pending else []
  {
    hide Outcome, LookAhead, CrcOf, EndOf;
  }

  // ----- Short texts -----

  /** A text that fits one block and has a decoding ends in the read that takes it. */
  lemma EndsInBlock(pre: seq<byte>, input: seq<byte>, want: nat, m: Mode)
    requires |input| <= BLOCK && (Parse(pre, input, m).Some? || (input != [] && m.noheaders))
    ensures LookAhead(|pre|, input, want, m).eof
  {
    hide Closed, Sextets, BodyLen, Close, BlockValues;
    assert Peek(input, BLOCK) == input;
  }
}
