/** An output with a write cache. Its byte count leaves out what is still in the cache. */
module Destination {
  import opened Octets

  /** PGP_OUTPUT_CACHE_SIZE */
  const CACHE: nat := 32768

  /** `direct`: no_cache. `sent`: writeb. `cached`: clen. */
  datatype Count = Count(direct: bool, sent: nat, cached: nat)

  predicate Sane(c: Count) {
    c.cached <= CACHE && (c.direct ==> c.cached == 0)
  }

  /** The counters after `len` more bytes. */
  function Advance(c: Count, len: nat): (r: Count)
    requires Sane(c)
    ensures Sane(r) && r.direct == c.direct && r.sent + r.cached == c.sent + c.cached + len
  {
    if c.cached > 0 && c.cached + len > CACHE then
      Store(Count(c.direct, c.sent + CACHE, 0), c.cached + len - CACHE)
    else Store(c, len)
  }

  function Store(c: Count, len: nat): (r: Count) {
    if c.direct || len > CACHE then c.(sent := c.sent + len) else c.(cached := c.cached + len)
  }

  lemma AdvanceNone(c: Count)
    requires Sane(c)
    ensures Advance(c, 0) == c
  {
  }

  lemma AdvanceOver(c: Count, len: nat)
    requires Sane(c) && c.cached > 0 && c.cached + len > CACHE
    ensures Advance(c, len) == Store(Count(c.direct, c.sent + CACHE, 0), c.cached + len - CACHE)
  {
  }

  lemma AdvanceHere(c: Count, len: nat)
    requires Sane(c) && !(c.cached > 0 && c.cached + len > CACHE)
    ensures Advance(c, len) == Store(c, len) && (len > CACHE ==> c.cached == 0)
  {
  }

  /** Pieces that all fit the cache are as good as one. */
  lemma AdvanceTwice(c: Count, m: nat, n: nat)
    requires Sane(c) && (c.direct || c.cached + m + n <= CACHE)
    ensures Advance(Advance(c, m), n) == Advance(c, m + n)
  {
  }

  class Output {
    const direct: bool
    /** bytes passed on */
    var passed: seq<octet>
    var writeb: nat
    const cache: array<octet>
    var clen: nat

    ghost predicate Valid()
      reads this
    {
      cache.Length == CACHE && writeb == |passed| && Sane(Counts())
    }

    ghost function Counts(): Count
      reads this
    {
      Count(direct, writeb, clen)
    }

    /** Everything written so far. */
    ghost function Content(): seq<octet>
      requires Valid()
      reads this, cache
    {
      passed + cache[..clen]
    }

    constructor (direct: bool)
      ensures Valid() && fresh(cache) && Content() == [] && Counts() == Count(direct, 0, 0)
    {
      this.direct, passed, writeb, clen := direct, [], 0, 0;
      cache := new octet[CACHE];
    }

    /** dst_write */
    method Write(buf: seq<octet>)
      requires Valid()
      modifies this, cache
      ensures Valid() && Content() == old(Content()) + buf && Counts() == Advance(old(Counts()), |buf|)
    {
      hide Advance;
      ghost var c, was := Counts(), Content();
      if |buf| == 0 {
        AdvanceNone(c);
        assert was + buf == was;
        return;
      }
      var rest := buf;
      if clen > 0 && clen + |buf| > CACHE {
        var room := CACHE - clen;
        Fill(buf[..room]);
        rest := buf[room..];
        Pass();
        AdvanceOver(c, |buf|);
        assert was + buf[..room] + rest == was + buf;
      } else {
        AdvanceHere(c, |buf|);
      }
      if direct || |rest| > CACHE {
        assert cache[..clen] == [];
        passed := passed + rest;
        writeb := writeb + |rest|;
      } else {
        Fill(rest);
      }
    }

    /** memcpy into the cache */
    method Fill(b: seq<octet>)
      requires cache.Length == CACHE && clen + |b| <= CACHE
      modifies `clen, cache
      ensures clen == old(clen) + |b| && passed + cache[..clen] == passed + old(cache[..clen]) + b
    {
      ghost var was := cache[..clen];
      forall i | 0 <= i < |b| {
        cache[clen + i] := b[i];
      }
      clen := clen + |b|;
      assert cache[..clen] == was + b;
      assert passed + (was + b) == passed + was + b;
    }

    /** The cache is passed on and emptied. */
    method Pass()
      requires cache.Length == CACHE && clen <= CACHE && writeb == |passed|
      modifies `passed, `writeb, `clen
      ensures clen == 0 && writeb == |passed| && passed == old(passed) + old(cache[..clen])
    {
      passed := passed + cache[..clen];
      writeb := writeb + clen;
      clen := 0;
    }

    /** dst_flush: then everything has been passed on, and the count is that of all bytes. */
    method Flush()
      requires Valid()
      modifies `passed, `writeb, `clen
      ensures Valid() && passed == Content() == old(Content()) && writeb == |passed|
    {
      Pass();
    }
  }
}
