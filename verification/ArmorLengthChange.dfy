/** Runs of writes with changes of the line length between them. */
module ArmorLengthChange {
  import opened Base64
  import opened Sequences
  import opened ArmorText
  import opened ArmorEncoder
  import opened ArmorLineLength

  datatype Act = Put(data: seq<byte>) | Length(len: nat)

  /** The writer between calls, with its line length. */
  datatype Desk = Desk(pen: Pen, llen: nat)

  predicate Usable(d: Desk) {
    Ready(d.pen, d.llen) && d.pen.lout % 4 == 0
  }

  /** A length out of range changes nothing. */
  function Acted(d: Desk, act: Act, eol: seq<byte>): (r: Desk)
    requires Usable(d)
    ensures Usable(r)
  {
    match act
    case Put(data) =>
      NextColumn(d.pen, data, d.llen, eol);
      d.(pen := Next(d.pen, data, d.llen, eol))
    case Length(len) => if MIN_LINE <= len <= MAX_LINE then d.(llen := len) else d
  }

  predicate ActFits(d: Desk, act: Act, eol: seq<byte>)
    requires Usable(d)
  {
    act.Put? ==> Fits(d.pen, act.data, d.llen, eol)
  }

  function AfterActs(d: Desk, acts: seq<Act>, eol: seq<byte>): (r: Desk)
    requires Usable(d)
    ensures Usable(r)
  {
    if acts == [] then d
    else
      var n := |acts| - 1;
      Acted(AfterActs(d, acts[..n], eol), acts[n], eol)
  }

  /** Does every turn of the line loop stay inside encbuf? */
  predicate ActsFit(d: Desk, acts: seq<Act>, eol: seq<byte>)
    requires Usable(d)
  {
    acts == [] ||
    var n := |acts| - 1;
    ActsFit(d, acts[..n], eol) && ActFits(AfterActs(d, acts[..n], eol), acts[n], eol)
  }

  function DataOf(acts: seq<Act>): (r: seq<byte>) {
    if acts == [] then []
    else
      var n := |acts| - 1;
      DataOf(acts[..n]) + if acts[n].Put? then acts[n].data else []
  }

  function Puts(writes: seq<seq<byte>>): (acts: seq<Act>)
    ensures |acts| == |writes| && forall i :: 0 <= i < |writes| ==> acts[i] == Put(writes[i])
  {
    seq(|writes|, i requires 0 <= i < |writes| => Put(writes[i]))
  }

  lemma ActsNext(d: Desk, acts: seq<Act>, i: nat, eol: seq<byte>)
    requires Usable(d) && i < |acts|
    ensures AfterActs(d, acts[..i + 1], eol) == Acted(AfterActs(d, acts[..i], eol), acts[i], eol)
    ensures ActsFit(d, acts[..i + 1], eol) <==>
            ActsFit(d, acts[..i], eol) && ActFits(AfterActs(d, acts[..i], eol), acts[i], eol)
    ensures DataOf(acts[..i + 1]) == DataOf(acts[..i]) + if acts[i].Put? then acts[i].data else []
  {
    hide Acted, ActFits;
    assert acts[..i + 1][..i] == acts[..i];
  }

  lemma NoActs(d: Desk, acts: seq<Act>, eol: seq<byte>)
    requires Usable(d)
    ensures AfterActs(d, acts[..0], eol) == d && ActsFit(d, acts[..0], eol) && DataOf(acts[..0]) == []
  {
  }

  lemma {:induction false} ActsPrefix(d: Desk, acts: seq<Act>, i: nat, eol: seq<byte>)
    requires Usable(d) && i <= |acts| && ActsFit(d, acts, eol)
    ensures ActsFit(d, acts[..i], eol)
    decreases |acts|
  {
    hide Acted, ActFits;
    if i == |acts| {
      assert acts[..i] == acts;
    } else {
      var n := |acts| - 1;
      ActsPrefix(d, acts[..n], i, eol);
      assert acts[..n][..i] == acts[..i];
    }
  }

  // ----- The exact condition -----

  /** Plain writes after a run are a sequence of writes at the line length it left. */
  lemma {:induction false} ThenWrites(d: Desk, acts: seq<Act>, writes: seq<seq<byte>>, eol: seq<byte>)
    requires Usable(d)
    ensures var q := AfterActs(d, acts, eol);
            && AfterActs(d, acts + Puts(writes), eol) == q.(pen := After(q.pen, writes, q.llen, eol))
            && (ActsFit(d, acts + Puts(writes), eol) <==> ActsFit(d, acts, eol) && AllFit(q.pen, writes, q.llen, eol))
            && DataOf(acts + Puts(writes)) == DataOf(acts) + Flatten(writes)
    decreases |writes|
  {
    hide Next, Fits, AfterActs, ActsFit, DataOf, Puts, Flatten;
    var q, all := AfterActs(d, acts, eol), acts + Puts(writes);
    if writes == [] {
      assert all == acts && writes == writes[..0];
      FlattenNone(writes);
      assert DataOf(acts) + [] == DataOf(acts);
    } else {
      var n := |writes| - 1;
      var m := |acts| + n;
      ThenWrites(d, acts, writes[..n], eol);
      assert all[..m] == acts + Puts(writes[..n]) && all[m] == Put(writes[n]) && all[..m + 1] == all;
      ActsNext(d, all, m, eol);
      AfterNext(q.pen, writes, n, q.llen, eol);
      FlattenNext(writes, n);
      assert writes[..n + 1] == writes;
      assert DataOf(acts) + Flatten(writes[..n]) + writes[n] == DataOf(acts) + (Flatten(writes[..n]) + writes[n]);
    }
  }

  /** Whatever was written and whatever lengths were set: every sequence of writes that follows fits if and
      only if the run did and its last column is safe for its last line length. */
  lemma ActsExact(d: Desk, acts: seq<Act>, eol: seq<byte>)
    requires Usable(d) && |eol| <= 2
    ensures var q := AfterActs(d, acts, eol);
            (forall writes :: ActsFit(d, acts + Puts(writes), eol)) <==>
            ActsFit(d, acts, eol) && Safe(q.pen.lout, q.llen, |eol|)
  {
    hide ActsFit, AfterActs, AllFit, Safe, Puts, DataOf;
    var q := AfterActs(d, acts, eol);
    BufferExactFrom(q.pen, q.llen, eol);
    if ActsFit(d, acts, eol) && Safe(q.pen.lout, q.llen, |eol|) {
      forall writes
        ensures ActsFit(d, acts + Puts(writes), eol)
      {
        ThenWrites(d, acts, writes, eol);
      }
    } else if !ActsFit(d, acts, eol) {
      ThenWrites(d, acts, [], eol);
    } else {
      var writes :| !AllFit(q.pen, writes, q.llen, eol);
      ThenWrites(d, acts, writes, eol);
    }
  }

  /** Each accepted length is set at a column that is safe for it. */
  predicate Steady(d: Desk, acts: seq<Act>, eol: seq<byte>)
    requires Usable(d)
  {
    acts == [] ||
    var n := |acts| - 1;
    && Steady(d, acts[..n], eol)
    && (acts[n].Length? ==>
          var q := AfterActs(d, acts, eol);
          Safe(q.pen.lout, q.llen, |eol|))
  }

  /** A steady run fits. */
  lemma {:induction false} SteadyFits(d: Desk, acts: seq<Act>, eol: seq<byte>)
    requires Usable(d) && |eol| <= 2 && Safe(d.pen.lout, d.llen, |eol|) && Steady(d, acts, eol)
    ensures ActsFit(d, acts, eol)
    ensures var q := AfterActs(d, acts, eol); Safe(q.pen.lout, q.llen, |eol|)
    decreases |acts|
  {
    hide Next, Fits, Safe;
    if acts != [] {
      var n := |acts| - 1;
      SteadyFits(d, acts[..n], eol);
      var q := AfterActs(d, acts[..n], eol);
      if acts[n].Put? {
        SafeNext(q.pen, acts[n].data, q.llen, eol);
      }
    }
  }

  // ----- The writer -----

  /** The writer itself, taken through a run. */
  method Perform(dst: ArmoredDest, acts: seq<Act>) returns (ok: bool)
    requires dst.Sound()
    modifies dst
    ensures ok <==> ActsFit(Desk(old(dst.State()), old(dst.llen)), acts, dst.eol)
    ensures ok ==> dst.Sound() && dst.input == old(dst.input) + DataOf(acts)
    ensures ok ==> Desk(dst.State(), dst.llen) == AfterActs(Desk(old(dst.State()), old(dst.llen)), acts, dst.eol)
  {
    hide Next, Fits, AfterActs, ActsFit, DataOf, Encode, Chars, Ready;
    ghost var d, eol, was := Desk(dst.State(), dst.llen), dst.eol, dst.input;
    NoActs(d, acts, eol);
    assert was + [] == was;
    for i := 0 to |acts|
      invariant dst.Sound() && dst.input == was + DataOf(acts[..i])
      invariant ActsFit(d, acts[..i], eol) && Desk(dst.State(), dst.llen) == AfterActs(d, acts[..i], eol)
    {
      ActsNext(d, acts, i, eol);
      match acts[i] {
        case Put(data) =>
          assert was + DataOf(acts[..i]) + data == was + (DataOf(acts[..i]) + data);
          ok := dst.Write(data);
          if !ok {
            if ActsFit(d, acts, eol) {
              ActsPrefix(d, acts, i + 1, eol);
            }
            return;
          }
        case Length(len) =>
          assert DataOf(acts[..i]) + [] == DataOf(acts[..i]);
          var _ := dst.SetLineLength(len);
      }
    }
    assert acts[..|acts|] == acts;
    ok := true;
  }
}
