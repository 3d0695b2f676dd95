/** The loops of compress_page and xc_compression_uncompress_page, proved against the codec. */
module PageCompressor {
  import opened Sequences
  import opened PageCodec

  // ------------------------------------------------------------------ encoder

  /** The words from `ptr` on are, for `len` words, all changed or all unchanged. */
  predicate Uniform(now: seq<Byte>, was: seq<Byte>, ptr: nat, len: nat, changed: bool)
    requires IsPage(now) && IsPage(was) && ptr + len <= WORDS
  {
    forall i :: ptr <= i < ptr + len ==> Differs(now, was, i) == changed
  }

  predicate Ends(now: seq<Byte>, was: seq<Byte>, ptr: nat, len: nat, changed: bool)
    requires IsPage(now) && IsPage(was) && ptr + len <= WORDS
  {
    len == MAXRUN || ptr + len == WORDS || Differs(now, was, ptr + len) != changed
  }

  lemma {:induction false} RunLengthIs(now: seq<Byte>, was: seq<Byte>, s: nat, n: nat, len: nat, changed: bool)
    requires IsPage(now) && IsPage(was) && 1 <= n <= len <= MAXRUN && s + len <= WORDS
    requires Uniform(now, was, s, len, changed) && Ends(now, was, s, len, changed)
    ensures RunLength(now, was, s, n) == len
    decreases len - n
  {
    if n < len {
      RunLengthIs(now, was, s, n + 1, len, changed);
    }
  }

  /** What is written so far is the encoding of the words before `ptr`. */
  predicate Emitted(dest: seq<Byte>, now: seq<Byte>, was: seq<Byte>, ptr: nat)
    requires IsPage(now) && IsPage(was) && ptr <= WORDS
  {
    dest + EncodeFrom(now, was, ptr) == EncodeFrom(now, was, 0)
  }

  lemma EmitRun(dest: seq<Byte>, now: seq<Byte>, was: seq<Byte>, ptr: nat, len: nat, code: seq<Byte>)
    requires IsPage(now) && IsPage(was) && ptr < WORDS && Emitted(dest, now, was, ptr)
    requires len == RunLength(now, was, ptr, 1) && code == RunCode(now, was, ptr)
    ensures Emitted(dest + code, now, was, ptr + len)
  {
    hide RunCode, RunLength;
    Regroup(dest, code, EncodeFrom(now, was, ptr + len));
  }

  lemma EmitEnds(now: seq<Byte>, was: seq<Byte>, dest: seq<Byte>)
    requires IsPage(now) && IsPage(was)
    ensures Emitted([], now, was, 0)
    ensures Emitted(dest, now, was, WORDS) ==> dest == EncodeFrom(now, was, 0)
  {
    assert [] + EncodeFrom(now, was, 0) == EncodeFrom(now, was, 0);
    assert dest + [] == dest;
  }

  /** Everything was skipped exactly if nothing has changed so far. */
  predicate SkipCount(skipped: nat, now: seq<Byte>, was: seq<Byte>, ptr: nat)
    requires IsPage(now) && IsPage(was) && ptr <= WORDS
  {
    skipped <= 4 * ptr && (skipped == 4 * ptr <==> now[..4 * ptr] == was[..4 * ptr])
  }

  lemma CountCopied(skipped: nat, now: seq<Byte>, was: seq<Byte>, ptr: nat, len: nat)
    requires IsPage(now) && IsPage(was) && ptr + len <= WORDS && len > 0
    requires SkipCount(skipped, now, was, ptr) && Uniform(now, was, ptr, len, true)
    ensures SkipCount(skipped, now, was, ptr + len)
  {
    assert Differs(now, was, ptr);
    var a, b := now[..4 * (ptr + len)], was[..4 * (ptr + len)];
    assert a[4 * ptr] == now[4 * ptr] && b[4 * ptr] == was[4 * ptr];
    assert a[4 * ptr + 1] == now[4 * ptr + 1] && b[4 * ptr + 1] == was[4 * ptr + 1];
    assert a[4 * ptr + 2] == now[4 * ptr + 2] && b[4 * ptr + 2] == was[4 * ptr + 2];
    assert a[4 * ptr + 3] == now[4 * ptr + 3] && b[4 * ptr + 3] == was[4 * ptr + 3];
  }

  lemma CountEnds(now: seq<Byte>, was: seq<Byte>, skipped: nat)
    requires IsPage(now) && IsPage(was)
    ensures SkipCount(0, now, was, 0)
    ensures SkipCount(skipped, now, was, WORDS) ==> (skipped == PAGE <==> now == was)
  {
    assert now[..PAGE] == now && was[..PAGE] == was;
  }

  lemma CountSkipped(skipped: nat, now: seq<Byte>, was: seq<Byte>, ptr: nat, len: nat)
    requires IsPage(now) && IsPage(was) && ptr + len <= WORDS
    requires SkipCount(skipped, now, was, ptr) && Uniform(now, was, ptr, len, false)
    ensures SkipCount(skipped + 4 * len, now, was, ptr + len)
  {
    SameWords(now, was, ptr, len);
    var a, b := now[..4 * (ptr + len)], was[..4 * (ptr + len)];
    assert a == now[..4 * ptr] + now[4 * ptr..4 * (ptr + len)];
    assert b == was[..4 * ptr] + was[4 * ptr..4 * (ptr + len)];
    assert a[..4 * ptr] == now[..4 * ptr] && b[..4 * ptr] == was[..4 * ptr];
  }

  /** The words not yet compared are still the old ones, although the page is updated in place. */
  lemma MixedDiffers(now: seq<Byte>, was: seq<Byte>, ptr: nat, i: nat)
    requires IsPage(now) && IsPage(was) && ptr <= i < WORDS
    ensures Differs(now, Mixed(now, was, ptr), i) == Differs(now, was, i)
  {
  }

  /** Write out the run that ends here: its header, and for a changed run its bytes, which go to
      the cache page as well. */
  method FlushRun(now: seq<Byte>, ghost was: seq<Byte>, cache: seq<Byte>, dest: seq<Byte>, ptr: nat, len: nat,
                  changed: bool, skipped: nat)
    returns (cache': seq<Byte>, dest': seq<Byte>, skipped': nat)
    requires IsPage(now) && IsPage(was) && 1 <= len <= MAXRUN && ptr + len <= WORDS
    requires Uniform(now, was, ptr, len, changed) && Ends(now, was, ptr, len, changed)
    requires Progress(now, was, ptr, cache, dest, skipped)
    ensures Progress(now, was, ptr + len, cache', dest', skipped')
  {
    hide Emitted, SkipCount, Ends, RunLength;
    RunLengthIs(now, was, ptr, 1, len, changed);
    assert Differs(now, was, ptr) == changed;
    EmitRun(dest, now, was, ptr, len, RunCode(now, was, ptr));
    if changed {
      var data := now[4 * ptr..4 * (ptr + len)];
      dest' := dest + ([len] + data);
      MixedCopy(now, was, ptr, len);
      cache' := cache[..4 * ptr] + data + cache[4 * (ptr + len)..];
      CountCopied(skipped, now, was, ptr, len);
      skipped' := skipped;
    } else {
      dest' := dest + [SKIP + len];
      MixedSkip(now, was, ptr, len);
      cache' := cache;
      CountSkipped(skipped, now, was, ptr, len);
      skipped' := skipped + 4 * len;
    }
  }

  /** The cache page, the output and the count after the words before `ptr` are written out. */
  predicate Progress(now: seq<Byte>, was: seq<Byte>, ptr: nat, cache: seq<Byte>, dest: seq<Byte>, skipped: nat)
    requires IsPage(now) && IsPage(was) && ptr <= WORDS
  {
    cache == Mixed(now, was, ptr) && Emitted(dest, now, was, ptr) && SkipCount(skipped, now, was, ptr)
  }

  /** The state in front of word `off`, or past the end. */
  predicate Scanning(now: seq<Byte>, was: seq<Byte>, off: nat, ptr: nat, len: nat, copying: bool)
    requires IsPage(now) && IsPage(was)
  {
    if off <= WORDS then
      && off == ptr + len && len <= MAXRUN && (off > 0 ==> len > 0) && Uniform(now, was, ptr, len, copying)
    else ptr == WORDS
  }

  lemma ProgressEnds(now: seq<Byte>, was: seq<Byte>, cache: seq<Byte>, dest: seq<Byte>, skipped: nat)
    requires IsPage(now) && IsPage(was)
    ensures Progress(now, was, 0, was, [], 0)
    ensures Progress(now, was, WORDS, cache, dest, skipped) ==>
              cache == now && dest == EncodeFrom(now, was, 0) && (skipped == PAGE <==> now == was)
  {
    MixedAll(now, was);
    EmitEnds(now, was, dest);
    CountEnds(now, was, skipped);
  }

  /** Whether word `off` has changed; past the last word, whatever ends the run. */
  method Look(now: seq<Byte>, ghost was: seq<Byte>, cache: seq<Byte>, off: nat, ghost ptr: nat, ghost dest: seq<Byte>,
              ghost skipped: nat, wascopying: bool) returns (copying: bool)
    requires IsPage(now) && IsPage(was) && ptr <= off <= WORDS && Progress(now, was, ptr, cache, dest, skipped)
    ensures copying == if off < WORDS then Differs(now, was, off) else !wascopying
  {
    if off < WORDS {
      MixedDiffers(now, was, ptr, off);
      copying := Differs(now, cache, off);
    } else {
      copying := !wascopying;
    }
  }

  predicate Full(len: nat, wascopying: bool, copying: bool) {
    len > 0 && (wascopying != copying || len == MAXRUN)
  }

  lemma ScanStep(now: seq<Byte>, was: seq<Byte>, off: nat, ptr: nat, len: nat, wascopying: bool, copying: bool)
    requires IsPage(now) && IsPage(was) && off <= WORDS && Scanning(now, was, off, ptr, len, wascopying)
    requires copying == if off < WORDS then Differs(now, was, off) else !wascopying
    ensures if Full(len, wascopying, copying)
            then 1 <= len <= MAXRUN && off == ptr + len && Ends(now, was, ptr, len, wascopying)
                 && Uniform(now, was, ptr, len, wascopying) && Scanning(now, was, off + 1, off, 1, copying)
            else Scanning(now, was, off + 1, ptr, len + 1, copying)
  {
  }

  /** The loop of compress_page over the words of the page; the step past the last word writes out
      the last run. */
  method CompressWords(now: seq<Byte>, was: seq<Byte>) returns (dest: seq<Byte>, cache: seq<Byte>, skipped: nat)
    requires IsPage(now) && IsPage(was)
    ensures cache == now && dest == EncodeFrom(now, was, 0)
    ensures skipped == PAGE <==> now == was
  {
    var off, ptr, len, wascopying := 0, 0, 0, false;
    dest, cache, skipped := [], was, 0;
    ProgressEnds(now, was, cache, dest, skipped);
    while off <= WORDS
      invariant off <= WORDS + 1 && ptr <= WORDS
      invariant Progress(now, was, ptr, cache, dest, skipped)
      invariant Scanning(now, was, off, ptr, len, wascopying)
    {
      var copying := Look(now, was, cache, off, ptr, dest, skipped, wascopying);
      ScanStep(now, was, off, ptr, len, wascopying, copying);
      if Full(len, wascopying, copying) {
        cache, dest, skipped := FlushRun(now, was, cache, dest, ptr, len, wascopying, skipped);
        len, ptr := 0, off;
      }
      len, wascopying, off := len + 1, copying, off + 1;
    }
    ProgressEnds(now, was, cache, dest, skipped);
  }

  /** compress_page: the delta of the new page against the cached one, and the cached page after. */
  method CompressPage(now: seq<Byte>, was: seq<Byte>, space: nat)
    returns (ok: bool, code: seq<Byte>, cache: seq<Byte>)
    requires IsPage(now) && IsPage(was)
    ensures ok <==> WORST <= space
    ensures ok ==> code == Encode(now, was) && |code| <= space && cache == now
    ensures !ok ==> code == [] && cache == was
  {
    if WORST > space {
      return false, [], was;
    }
    var dest, cache', skipped := CompressWords(now, was);
    if skipped == PAGE {
      dest := [EMPTY];
    }
    WorstCase(now, was);
    return true, dest, cache';
  }

  // ------------------------------------------------------------------ decoder

  /** xc_compression_uncompress_page. The page is written even when the buffer turns out to be bad
      later on; only a good result says what it holds. */
  method UncompressPage(buf: seq<Byte>, pos: nat, page: seq<Byte>) returns (rc: int, pos': nat, page': seq<Byte>)
    requires IsPage(page)
    ensures rc == 0 <==> Decode(buf, pos, page).Ok?
    ensures rc == 0 ==> Decode(buf, pos, page) == Ok(pos', page')
    ensures rc != 0 ==> rc == -1 && pos' == pos
  {
    pos', page' := pos, page;
    if pos >= |buf| {
      return -1, pos, page';
    }
    if buf[pos] == EMPTY {
      return 0, pos + 1, page';
    }
    if buf[pos] == FULL {
      if pos + PAGE + 1 > |buf| {
        return -1, pos, page';
      }
      return 0, pos + PAGE + 1, buf[pos + 1..pos + 1 + PAGE];
    }
    var at, p := 0, pos;
    var more := true;
    while more
      invariant IsPage(page') && p <= |buf| && at >= 0
      invariant more ==> p < |buf| && at < PAGE && Same(buf, pos, page, p, page', at)
      invariant !more ==> Decode(buf, pos, page) == Outcome(p, page', at)
      invariant pos' == pos
      decreases |buf| - p, more
    {
      var len := (buf[p] % SKIP) * 4;
      var skip := buf[p] >= SKIP;
      if len == 0 {
        return -1, pos, page';
      }
      ghost var p0, page0, at0 := p, page', at;
      p := p + 1;
      if !skip {
        if p + len > |buf| || at + len > PAGE {
          return -1, pos, page';
        }
        page' := page'[..at] + buf[p..p + len] + page'[at + len..];
        p := p + len;
      }
      at := at + len;
      more := at < PAGE && p < |buf|;
      assert Advances(buf, p0, page0, at0, p, page', at);
      AdvanceSame(buf, pos, page, p0, page0, at0, p, page', at);
    }
    if at != PAGE {
      return -1, pos, page';
    }
    return 0, p, page';
  }

  /** The decoder is where it would be had it started here. */
  predicate Same(buf: seq<Byte>, pos: nat, page: seq<Byte>, pos': nat, page': seq<Byte>, at': nat)
    requires IsPage(page) && IsPage(page') && pos' < |buf| && at' < PAGE
  {
    Decode(buf, pos, page) == DecodeRuns(buf, pos', page', at')
  }

  lemma AdvanceSame(buf: seq<Byte>, pos: nat, page: seq<Byte>, p0: nat, page0: seq<Byte>, at0: nat,
                    p: nat, page': seq<Byte>, at: nat)
    requires IsPage(page) && Advances(buf, p0, page0, at0, p, page', at) && Same(buf, pos, page, p0, page0, at0)
    ensures if at < PAGE && p < |buf| then Same(buf, pos, page, p, page', at)
            else Decode(buf, pos, page) == Outcome(p, page', at)
  {
  }

  /** What the decoder answers behind its last run. */
  function Outcome(pos: nat, page: seq<Byte>, at: nat): Decoded {
    if at == PAGE then Ok(pos, page) else Bad
  }
}
