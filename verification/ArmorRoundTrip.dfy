/** The round trip through writer and reader. */
module ArmorRoundTrip {
  import opened Options
  import opened Base64
  import opened Sequences
  import opened ArmorText
  import opened ArmorEncoder
  import opened ArmorLineLength
  import opened ArmorLengthChange
  import opened ArmorReference
  import opened ArmorDecoder
  import opened ArmorRuns
  import opened ArmorMeaning

  // ----- One more read -----

  /** Where a sequence of reads stands: `out` delivered, state `v` reached from `first`. */
  ghost predicate Reading(first: View, out: seq<byte>, v: View) {
    && v.mode == first.mode
    && (!v.eof ==> v.stale == 0)
    && Outcome(first) == Prepend(out, Outcome(v))
    && (!v.eof ==> EndOf(v.input) == EndOf(first.input))
    && (!first.mode.noheaders && !v.eof ==> v.fed == out)
  }

  /** Reading goes on unless the pending bytes are drained exactly. */
  lemma ReadingOn(first: View, out: seq<byte>, v: View, e: Event, w: View)
    requires Reading(first, out, v) && Step(v, e.len, w, e.out, e.lost)
    requires !v.eof ==> v.pending == [] || e.len != |v.pending|
    ensures Reading(first, out + e.out, w)
    ensures !v.eof && w.eof && !first.mode.noheaders ==>
      w.crc == CrcOf(first.input, first.mode) && w.fed == out + e.out + w.pending
  {
    hide Outcome, Step, EndOf, CloseCrc, Prepend;
    StaysFresh(v, e, w);
    StepOutcome(v, e, w);
    assert e.out + [] == e.out;
    PrependPrepend(out, e.out, Outcome(w));
    StepCrc(v, e, w);
    assert out + e.out + ([] + w.pending) == out + e.out + w.pending;
    assert out + e.out + [] == out + e.out;
  }

  /** Once the data has ended, what is delivered comes from the pending bytes. */
  lemma AfterEnd(out: seq<byte>, v: View, e: Event, w: View)
    requires Step(v, e.len, w, e.out, e.lost) && v.eof
    ensures w.eof && out + v.pending == out + e.out + w.pending
  {
    hide LookAhead;
    assert v.pending == e.out + w.pending;
  }

  /** The mismatch warning is right about the bytes `all`. */
  ghost predicate Warned(mismatch: bool, crc: Option<Crc>, crc24: seq<byte> -> Crc, all: seq<byte>) {
    mismatch <==> crc.Some? && crc.value != crc24(all)
  }

  /** One read from a reader that is not at a stale position: what it delivers comes next, and what is
      left is still to come. */
  method ReadOn(src: ArmoredSource, buf: array<byte>, len: nat, ghost first: View, ghost out: seq<byte>)
    returns (st: Status, n: nat, ghost lost: seq<byte>)
    requires src.Valid() && len <= buf.Length && buf != src.rest && buf != src.brest
    requires Reading(first, out, src.State())
    requires var v := src.State(); !v.eof ==> v.pending == [] || len != |v.pending|
    requires src.eofb64 && !src.mode.noheaders ==>
      Warned(src.mismatch, CrcOf(first.input, first.mode), src.crc24, out + src.State().pending)
    modifies src, src.rest, src.brest, buf
    ensures st == NoCrc <==> src.mode.noheaders && Served(old(src.State()), len)
    ensures st == Failed || st == OutsideTable ==> Outcome(first) == None && !old(src.eofb64)
    ensures var v := old(src.State());
            !v.eof && !Served(v, len) && (st != Done || src.eofb64) ==>
              (st == OutsideTable <==> BadEnd(first.input, first.mode))
    ensures st == Done ==> src.Valid() && n <= len && Reading(first, out + buf[..n], src.State())
    ensures st == Done ==> Step(old(src.State()), len, src.State(), buf[..n], lost)
    ensures st == Done && src.eofb64 && !src.mode.noheaders ==>
      Warned(src.mismatch, CrcOf(first.input, first.mode), src.crc24, out + buf[..n] + src.State().pending)
    ensures st == Done && len >= 3 && n == 0 ==> Outcome(first) == Some(out) && src.eofb64 && src.State().pending == []
    ensures st == Done && len > |old(src.State().pending)| && !src.eofb64 ==> |src.input| < |old(src.input)|
    ensures st == Done && old(src.eofb64) ==> src.eofb64 && |src.State().pending| + n == |old(src.State().pending)|
  {
    hide Outcome, Step, EndOf, CloseCrc, Served, Prepend, BadEnd;
    ghost var v := src.State();
    if !v.eof {
      SameEnd(v.input, first.input, first.mode);
    }
    st, n, lost := src.Read(buf, len);
    if st == Done {
      ghost var e, w := Event(len, buf[..n], lost), src.State();
      ReadingOn(first, out, v, e, w);
      StepSizes(v, e, w);
      if v.eof {
        AfterEnd(out, v, e, w);
      }
      if n == 0 {
        assert out + e.out == out;
        if len >= 3 {
          Finished(out, w);
        }
      }
    } else {
      PrependNone(out);
      EndedIsSome(v);
    }
  }

  lemma EndedIsSome(v: View)
    ensures v.eof ==> Outcome(v).Some?
  {
  }

  lemma StepSizes(v: View, e: Event, w: View)
    requires Step(v, e.len, w, e.out, e.lost)
    ensures e.len >= 3 && e.out == [] ==> w.eof && w.pending == []
    ensures !w.eof && |v.pending| < e.len ==> |w.input| < |v.input|
    ensures v.eof ==> |w.pending| + |e.out| == |v.pending|
  {
    hide LookAhead;
  }

  lemma Finished(out: seq<byte>, v: View)
    requires v.eof && v.pending == []
    ensures Prepend(out, Outcome(v)) == Some(out)
  {
    assert out + [] == out;
  }

  // ----- Whole transfers -----

  /** Reads until nothing comes, as rnp_dearmor_source does. A buffer larger than rest can never
      be filled by pending bytes alone, so every read is harmless. */
  method ReadAll(src: ArmoredSource, size: nat) returns (r: Option<seq<byte>>, outside: bool)
    requires src.Valid() && size > BLOCK
    requires !src.eofb64 && src.restpos == 0 && src.restlen == 0 && src.fed == []
    modifies src, src.rest, src.brest
    ensures r == Outcome(old(src.State()))
    ensures outside <==> BadEnd(old(src.input), src.mode)
    ensures r.Some? && !src.mode.noheaders ==>
      Warned(src.mismatch, CrcOf(old(src.input), src.mode), src.crc24, r.value)
  {
    hide Outcome, Prepend, EndOf, CloseCrc, Step, BadEnd;
    ghost var first := src.State();
    var out := [];
    var buf := new byte[size];
    PrependEmpty(Outcome(first));
    while true
      invariant src.Valid() && fresh(buf)
      invariant Reading(first, out, src.State())
      invariant src.eofb64 && !src.mode.noheaders ==>
        Warned(src.mismatch, CrcOf(first.input, first.mode), src.crc24, out + src.State().pending)
      invariant src.eofb64 ==> !BadEnd(first.input, first.mode)
      decreases !src.eofb64, if src.eofb64 then |src.State().pending| else |src.input|
    {
      var st, n, _ := ReadOn(src, buf, size, first, out);
      if st != Done {
        return None, st == OutsideTable;
      }
      if n == 0 {
        assert out + buf[..n] + [] == out;
        return Some(out), false;
      }
      out := out + buf[..n];
    }
  }

  /** Armors a sequence of writes, at any line length. Not ok: some write passes the end of encbuf. */
  method ArmorAll(writes: seq<seq<byte>>, llen: nat, header: seq<byte>, footer: seq<byte>, crc24: seq<byte> -> Crc)
    returns (ok: bool, text: seq<byte>, ghost w: seq<byte>, ghost open: bool)
    requires MIN_LINE <= llen <= MAX_LINE
    ensures ok <==> AllFit(Pen(0, [], header), writes, llen, [CR, LF])
    ensures var payload := Flatten(writes);
            ok ==> && text == header + Armored(w, payload, open, crc24(payload), footer)
                   && Chars(w) == Encode(payload) && (|payload| % 3 == 0 || open)
    ensures llen % 4 == 0 ==> ok && text == header + ArmorTail(Flatten(writes), llen, crc24(Flatten(writes)), footer)
  {
    hide Encode, Chars, AllFit, Armored, PenOf, TailOf, EncodeTail, Closing, Flatten, ArmorTail;
    text, w, open := [], [], false;
    var dst := new ArmoredDest(crc24, false, header, footer);
    var _ := dst.SetLineLength(llen);
    Start(dst, llen, header);
    ok := WriteAll(dst, writes);
    if ok {
      ghost var all := Flatten(writes);
      assert [] + all == all;
      w, open := SoundText(dst);
      dst.Finish();
      text := dst.out;
      assert text == header + Armored(w, all, open, crc24(all), footer) by {
        FinishedText(header, w, all, open, crc24(all), footer);
      }
    }
  }

  lemma Start(dst: ArmoredDest, llen: nat, header: seq<byte>)
    requires dst.Valid() && dst.input == [] && dst.llen == llen && dst.header == header && !dst.base64
    ensures 0 < llen && Ready(Pen(0, [], header), llen)
    ensures dst.Sound() && dst.State() == Pen(0, [], header) && dst.eol == [CR, LF]
  {
    hide PenOf, Chars, Encode;
    EmptyPen(llen, dst.eol, header);
  }

  lemma SoundText(dst: ArmoredDest) returns (w: seq<byte>, open: bool)
    requires dst.Sound()
    ensures dst.out == dst.header + w && Chars(w) == Encode(dst.input) && dst.tail == TailOf(dst.input)
    ensures open == (|dst.tail| > 0 || dst.lout > 0) && (|dst.input| % 3 == 0 || open)
  {
    hide Chars, Encode, TailOf;
    w, open := dst.out[|dst.header|..], |dst.tail| > 0 || dst.lout > 0;
  }

  lemma FinishedText(header: seq<byte>, w: seq<byte>, all: seq<byte>, open: bool, crc: Crc, footer: seq<byte>)
    ensures header + w + EncodeTail(TailOf(all)) + Closing(open, crc, footer)
            == header + Armored(w, all, open, crc, footer)
  {
    hide EncodeTail, Closing, TailOf;
  }

  /** Armor any sequence of writes, then dearmor: whenever the writes fit, and so at every line length
      that is a multiple of 4, the input comes back and no CRC mismatch is reported. */
  method Transfer(writes: seq<seq<byte>>, llen: nat, size: nat, header: seq<byte>, footer: seq<byte>,
                  crc24: seq<byte> -> Crc) returns (ok: bool, r: Option<seq<byte>>, mismatch: bool)
    requires MIN_LINE <= llen <= MAX_LINE && size > BLOCK
    requires footer != [] && footer[0] == DASH
    ensures ok <==> AllFit(Pen(0, [], header), writes, llen, [CR, LF])
    ensures llen % 4 == 0 ==> ok
    ensures ok ==> r == Some(Flatten(writes)) && !mismatch
  {
    hide Parse, EndOf, CloseCrc, ArmorTail, Flatten, AllFit, Armored, Chars, Encode;
    var text;
    ghost var w, open;
    r, mismatch := None, false;
    ok, text, w, open := ArmorAll(writes, llen, header, footer, crc24);
    if ok {
      ghost var payload := Flatten(writes);
      var src := OpenText(text, |header|, footer, crc24, w, payload, open);
      PrependEmpty(Some(payload));
      var outside;
      r, outside := ReadAll(src, size);
      mismatch := src.mismatch;
    }
  }

  /** A reader at the start of an armored text. */
  method OpenText(text: seq<byte>, at: nat, footer: seq<byte>, crc24: seq<byte> -> Crc,
                  ghost w: seq<byte>, ghost payload: seq<byte>, ghost open: bool) returns (src: ArmoredSource)
    requires footer != [] && footer[0] == DASH && at <= |text|
    requires text[at..] == Armored(w, payload, open, crc24(payload), footer)
    requires Chars(w) == Encode(payload) && (|payload| % 3 == 0 || open)
    ensures src.Valid() && fresh(src) && fresh(src.rest) && fresh(src.brest) && src.crc24 == crc24
    ensures src.State() == View(Mode(false, footer), text[at..], [], [], 0, false, None, [])
    ensures src.restpos == 0 && src.restlen == 0
    ensures Outcome(src.State()) == Some(payload) && CrcOf(src.input, src.mode) == Some(crc24(payload))
  {
    hide Parse, EndOf, CloseCrc, Armored, Chars, Encode;
    src := new ArmoredSource(text[at..], Mode(false, footer), crc24);
    ArmoredMeaning(w, payload, open, crc24(payload), footer);
    PrependEmpty(Some(payload));
  }

  /** The next read asks for exactly the pending bytes before the end of the data. */
  predicate Drains(v: View, len: nat) {
    !v.eof && v.pending != [] && len == |v.pending|
  }

  /** Reads of the first of these sizes led from `first` to `v` and delivered `got`. */
  ghost predicate Tracked(vs: seq<View>, es: seq<Event>, sizes: seq<nat>, first: View, v: View, got: seq<byte>) {
    && Run(vs, es) && vs[0] == first && vs[|es|] == v && got == Delivered(es)
    && |es| <= |sizes| && forall i :: 0 <= i < |es| ==> es[i].len == sizes[i]
  }

  lemma TrackNext(vs: seq<View>, es: seq<Event>, sizes: seq<nat>, first: View, v: View, got: seq<byte>,
                  w: View, e: Event)
    requires Tracked(vs, es, sizes, first, v, got) && |es| < |sizes|
    requires Step(v, e.len, w, e.out, e.lost) && e.len == sizes[|es|]
    ensures Tracked(vs + [w], es + [e], sizes, first, w, got + e.out)
  {
    hide Step;
    RunLonger(vs, es, w, e);
  }

  /** Reads of the given sizes, until one brings nothing or the next would drain the pending bytes. */
  method ReadSizes(src: ArmoredSource, sizes: seq<nat>, ghost payload: seq<byte>)
    returns (got: seq<byte>, finished: bool, drained: bool, ghost vs: seq<View>, ghost es: seq<Event>)
    requires src.Valid() && src.State() == View(src.mode, src.input, [], [], 0, false, None, []) && !src.mode.noheaders
    requires Outcome(src.State()) == Some(payload) && CrcOf(src.input, src.mode) == Some(src.crc24(payload))
    requires forall i :: 0 <= i < |sizes| ==> sizes[i] >= 3
    modifies src, src.rest, src.brest
    ensures src.Valid() && Tracked(vs, es, sizes, old(src.State()), src.State(), got)
    ensures got <= payload
    ensures drained <==> |es| < |sizes| && Drains(src.State(), sizes[|es|])
    ensures finished <==> es != [] && es[|es| - 1].out == []
    ensures finished ==> got == payload && !src.mismatch
    ensures !drained && |sizes| > |payload| ==> finished
  {
    hide Outcome, Reading, Warned, Tracked, CrcOf, Step, Drains;
    ghost var first := src.State();
    got, finished, drained, vs, es := [], false, false, [first], [];
    Begins(first, payload, sizes);
    var i := 0;
    while i < |sizes| && !finished
      invariant i == |es| <= |sizes| && src.Valid() && src.mode == first.mode
      invariant Tracked(vs, es, sizes, first, src.State(), got)
      invariant Reading(first, got, src.State())
      invariant src.eofb64 ==> Warned(src.mismatch, Some(src.crc24(payload)), src.crc24, got + src.State().pending)
      invariant got <= payload && (finished || i <= |got|)
      invariant finished <==> es != [] && es[|es| - 1].out == []
      invariant finished ==> got == payload && !src.mismatch && src.eofb64
    {
      ghost var v := src.State();
      var out;
      ghost var e;
      drained, out, e := TryRead(src, sizes[i], first, payload, got);
      if drained {
        return;
      }
      TrackNext(vs, es, sizes, first, v, got, src.State(), e);
      vs, es := vs + [src.State()], es + [e];
      got := got + out;
      finished := out == [];
      i := i + 1;
    }
    EndedOrOut(src.State(), sizes, |es|);
  }

  /** One read of a size that may drain the pending bytes; then nothing is done. */
  method TryRead(src: ArmoredSource, len: nat, ghost first: View, ghost payload: seq<byte>, ghost got: seq<byte>)
    returns (drained: bool, out: seq<byte>, ghost e: Event)
    requires src.Valid() && len >= 3 && !src.mode.noheaders && Reading(first, got, src.State())
    requires Outcome(first) == Some(payload) && CrcOf(first.input, first.mode) == Some(src.crc24(payload))
    requires src.eofb64 ==> Warned(src.mismatch, Some(src.crc24(payload)), src.crc24, got + src.State().pending)
    modifies src, src.rest, src.brest
    ensures src.Valid() && (drained <==> Drains(old(src.State()), len)) && (drained ==> src.State() == old(src.State()))
    ensures !drained ==> e.len == len && e.out == out && Step(old(src.State()), len, src.State(), out, e.lost)
    ensures !drained ==> Reading(first, got + out, src.State()) && got + out <= payload
    ensures !drained && src.eofb64 ==>
      Warned(src.mismatch, Some(src.crc24(payload)), src.crc24, got + out + src.State().pending)
    ensures !drained && out == [] ==> got + out == payload && !src.mismatch && src.eofb64
  {
    hide Outcome, Reading, Warned, CrcOf, Step, Drains;
    out, e := [], Event(len, [], []);
    if !src.eofb64 && src.restpos < src.restlen && len == src.restlen - src.restpos {
      IsDrain(src, len);
      return true, out, e;
    }
    NoDrain(src, len);
    var buf := new byte[len];
    var st, n, lost := ReadOn(src, buf, len, first, got);
    assert st == Done;
    drained, out, e := false, buf[..n], Event(len, buf[..n], lost);
    StillPrefix(first, got + out, src.State(), payload);
    if n == 0 {
      assert got + out + [] == got + out == got;
      NoMismatch(src.mismatch, src.crc24, payload);
    }
  }

  lemma IsDrain(src: ArmoredSource, len: nat)
    requires src.Valid() && !src.eofb64 && src.restpos < src.restlen && len == src.restlen - src.restpos
    ensures Drains(src.State(), len)
  {
  }

  lemma NoDrain(src: ArmoredSource, len: nat)
    requires src.Valid() && !(!src.eofb64 && src.restpos < src.restlen && len == src.restlen - src.restpos)
    ensures var v := src.State(); !Drains(v, len) && (!v.eof ==> v.pending == [] || len != |v.pending|)
  {
  }

  lemma EndedOrOut(v: View, sizes: seq<nat>, n: nat)
    requires v.eof || n == |sizes|
    ensures !(n < |sizes| && Drains(v, sizes[n]))
  {
  }

  /** A new writer, as rnp_output_to_armor sets it up. */
  function NewDesk(header: seq<byte>): (d: Desk)
    ensures Usable(d)
  {
    Desk(Pen(0, [], header), MAX_LINE)
  }

  /** A length set once, then only writes. */
  lemma PlainActs(header: seq<byte>, llen: nat, writes: seq<seq<byte>>, eol: seq<byte>)
    requires MIN_LINE <= llen <= MAX_LINE
    ensures var acts := [Length(llen)] + Puts(writes);
            && (ActsFit(NewDesk(header), acts, eol) <==> AllFit(Pen(0, [], header), writes, llen, eol))
            && DataOf(acts) == Flatten(writes)
  {
    hide Next, Fits, AllFit, Flatten, Puts;
    var d, one := NewDesk(header), [Length(llen)];
    assert one[..0] == [];
    assert AfterActs(d, one, eol) == Desk(Pen(0, [], header), llen) && ActsFit(d, one, eol) && DataOf(one) == [];
    ThenWrites(d, one, writes, eol);
    assert [] + Flatten(writes) == Flatten(writes);
  }

  /** Armors a run of writes and changes of the line length. Not ok: some write passes the end of encbuf. */
  method ArmorActs(acts: seq<Act>, header: seq<byte>, footer: seq<byte>, crc24: seq<byte> -> Crc)
    returns (ok: bool, text: seq<byte>, ghost w: seq<byte>, ghost open: bool)
    ensures ok <==> ActsFit(NewDesk(header), acts, [CR, LF])
    ensures Steady(NewDesk(header), acts, [CR, LF]) ==> ok
    ensures var payload := DataOf(acts);
            ok ==> && text == header + Armored(w, payload, open, crc24(payload), footer)
                   && Chars(w) == Encode(payload) && (|payload| % 3 == 0 || open)
  {
    hide Encode, Chars, ActsFit, AfterActs, DataOf, Armored, PenOf, Steady, TailOf, EncodeTail, Closing;
    text, w, open := [], [], false;
    var dst := new ArmoredDest(crc24, false, header, footer);
    Start(dst, MAX_LINE, header);
    ok := Perform(dst, acts);
    if Steady(NewDesk(header), acts, [CR, LF]) {
      SteadyFits(NewDesk(header), acts, [CR, LF]);
    }
    if ok {
      ghost var all := DataOf(acts);
      assert [] + all == all;
      w, open := SoundText(dst);
      dst.Finish();
      text := dst.out;
      FinishedText(header, w, all, open, crc24(all), footer);
    }
  }

  /** The round trip: any writes and changes of the line length, as long as they fit, and reads of any sizes
      from 3 up.
      The reads are a run of the reader on the written text. What they deliver is always the start of
      the input; it is all of it once a read brings nothing, and then the CRC agreed. Only a read that
      drains the pending bytes exactly stops the exchange; without one, as many reads as there are input
      bytes, and one more, are enough. */
  method Exchange(acts: seq<Act>, sizes: seq<nat>, header: seq<byte>, footer: seq<byte>, crc24: seq<byte> -> Crc)
    returns (ok: bool, got: seq<byte>, finished: bool, drained: bool, mismatch: bool,
             ghost vs: seq<View>, ghost es: seq<Event>)
    requires footer != [] && footer[0] == DASH
    requires forall i :: 0 <= i < |sizes| ==> sizes[i] >= 3
    ensures ok <==> ActsFit(NewDesk(header), acts, [CR, LF])
    ensures Steady(NewDesk(header), acts, [CR, LF]) ==> ok
    ensures ok ==> |vs| == |es| + 1 && Tracked(vs, es, sizes, vs[0], vs[|es|], got)
    ensures ok ==> Outcome(vs[0]) == Some(DataOf(acts)) && got <= DataOf(acts)
    ensures ok ==> (drained <==> |es| < |sizes| && Drains(vs[|es|], sizes[|es|]))
    ensures ok ==> (finished <==> es != [] && es[|es| - 1].out == [])
    ensures ok && finished ==> got == DataOf(acts) && !mismatch
    ensures ok && !drained && |sizes| > |DataOf(acts)| ==> finished
  {
    hide Outcome, Tracked, CrcOf, Drains, Armored, DataOf, ActsFit, Steady, Chars, Encode;
    var text;
    ghost var w, open;
    got, finished, drained, mismatch, vs, es := [], false, false, false, [], [];
    ok, text, w, open := ArmorActs(acts, header, footer, crc24);
    if ok {
      ghost var payload := DataOf(acts);
      assert text[|header|..] == Armored(w, payload, open, crc24(payload), footer);
      var src := OpenText(text, |header|, footer, crc24, w, payload, open);
      got, finished, drained, vs, es := ReadSizes(src, sizes, payload);
      mismatch := src.mismatch;
      TrackedEnds(vs, es, sizes, got);
    }
  }

  lemma TrackedEnds(vs: seq<View>, es: seq<Event>, sizes: seq<nat>, got: seq<byte>)
    ensures forall first, v :: Tracked(vs, es, sizes, first, v, got) ==>
      |vs| == |es| + 1 && vs[0] == first && vs[|es|] == v
  {
    hide Run;
    forall first, v | Tracked(vs, es, sizes, first, v, got)
      ensures |vs| == |es| + 1 && vs[0] == first && vs[|es|] == v
    {
      RunSize(vs, es);
    }
  }

  lemma Begins(first: View, payload: seq<byte>, sizes: seq<nat>)
    requires Outcome(first) == Some(payload) && !first.eof && first.stale == 0 && first.fed == []
    ensures Reading(first, [], first) && Tracked([first], [], sizes, first, first, [])
  {
    hide Outcome;
    PrependEmpty(Outcome(first));
  }

  lemma StillPrefix(first: View, out: seq<byte>, v: View, payload: seq<byte>)
    requires Reading(first, out, v) && Outcome(first) == Some(payload)
    ensures out <= payload
  {
    hide Outcome;
  }

  lemma NoMismatch(mismatch: bool, crc24: seq<byte> -> Crc, payload: seq<byte>)
    requires Warned(mismatch, Some(crc24(payload)), crc24, payload)
    ensures !mismatch
  {
  }

  /** The same of any run on the text, without reader and writer. */
  lemma RunRoundTrip(w: seq<byte>, payload: seq<byte>, open: bool, crc: Crc, footer: seq<byte>,
                     vs: seq<View>, es: seq<Event>)
    requires Chars(w) == Encode(payload) && (|payload| % 3 == 0 || open) && footer != [] && footer[0] == DASH
    requires Run(vs, es) && NoExactDrain(vs, es)
    requires vs[0] == View(Mode(false, footer), Armored(w, payload, open, crc, footer), [], [], 0, false, None, [])
    ensures Outcome(vs[|es|]).Some? && Delivered(es) <= payload
    ensures es != [] && es[|es| - 1].out == [] && es[|es| - 1].len >= 3 ==> Delivered(es) == payload
  {
    hide Parse, Armored, Step, Chars, Encode;
    ArmoredMeaning(w, payload, open, crc, footer);
    PrependEmpty(Some(payload));
    RunDelivers(vs, es);
    if es != [] && es[|es| - 1].out == [] && es[|es| - 1].len >= 3 {
      RunComplete(vs, es);
    }
  }
}
