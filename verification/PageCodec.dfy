/** The page delta codec of tools/libxc/xc_compression.c: runs of changed and unchanged 4-byte
words, each run behind a one-byte header. */
module PageCodec {
  import opened Sequences

  const PAGE: nat := 4096          // XC_PAGE_SIZE
  const WORDS: nat := 1024         // MAX_DELTAS
  const MAXRUN: nat := 127         // LENMASK
  const SKIP: int := 128           // SKIPFLAG
  const EMPTY: Byte := 0           // EMPTY_PAGE
  const FULL: Byte := 128          // FULL_PAGE
  const WORST: nat := PAGE + 9     // WORST_COMP_PAGE_SIZE

  predicate IsPage(p: seq<Byte>) {
    |p| == PAGE
  }

  /** Word `i` of the page has changed. */
  predicate Differs(now: seq<Byte>, was: seq<Byte>, i: nat)
    requires IsPage(now) && IsPage(was) && i < WORDS
  {
    || now[4 * i] != was[4 * i]
    || now[4 * i + 1] != was[4 * i + 1]
    || now[4 * i + 2] != was[4 * i + 2]
    || now[4 * i + 3] != was[4 * i + 3]
  }

  // ------------------------------------------------------------ specification

  /** How far the run that starts at word `s` and is already `n` long goes. */
  function RunLength(now: seq<Byte>, was: seq<Byte>, s: nat, n: nat): (r: nat)
    requires IsPage(now) && IsPage(was) && s < WORDS && 1 <= n <= MAXRUN && s + n <= WORDS
    ensures n <= r <= MAXRUN && s + r <= WORDS
    decreases |now| - n
  {
    if n < MAXRUN && s + n < WORDS && Differs(now, was, s + n) == Differs(now, was, s)
    then RunLength(now, was, s, n + 1)
    else n
  }

  /** The header and data of the run that starts at word `s`. */
  function RunCode(now: seq<Byte>, was: seq<Byte>, s: nat): (r: seq<Byte>)
    requires IsPage(now) && IsPage(was) && s < WORDS
  {
    var n := RunLength(now, was, s, 1);
    if Differs(now, was, s) then [n] + now[4 * s..4 * (s + n)] else [SKIP + n]
  }

  /** How many bytes that is. */
  function RunSize(now: seq<Byte>, was: seq<Byte>, s: nat): (r: nat)
    requires IsPage(now) && IsPage(was) && s < WORDS
  {
    if Differs(now, was, s) then 1 + 4 * RunLength(now, was, s, 1) else 1
  }

  /** The encoding of the words from `s` on. */
  function EncodeFrom(now: seq<Byte>, was: seq<Byte>, s: nat): (r: seq<Byte>)
    requires IsPage(now) && IsPage(was) && s <= WORDS
    decreases |now| - s
  {
    if s == WORDS then [] else RunCode(now, was, s) + EncodeFrom(now, was, s + RunLength(now, was, s, 1))
  }

  /** What compress_page emits. */
  function Encode(now: seq<Byte>, was: seq<Byte>): seq<Byte>
    requires IsPage(now) && IsPage(was)
  {
    if now == was then [EMPTY] else EncodeFrom(now, was, 0)
  }

  /** What add_full_page emits. */
  function EncodeFull(now: seq<Byte>): seq<Byte> {
    [FULL] + now
  }

  datatype Decoded = Ok(pos: nat, page: seq<Byte>) | Bad

  /** The run loop of xc_compression_uncompress_page. */
  function DecodeRuns(buf: seq<Byte>, pos: nat, page: seq<Byte>, pagepos: nat): Decoded
    requires IsPage(page) && pos < |buf| && pagepos < PAGE
    decreases |buf| - pos
  {
    var len := (buf[pos] % SKIP) * 4;
    if len == 0 then Bad
    else if buf[pos] < SKIP then
      if pos + 1 + len > |buf| || pagepos + len > PAGE then Bad
      else
        var page' := page[..pagepos] + buf[pos + 1..pos + 1 + len] + page[pagepos + len..];
        AfterRun(buf, pos + 1 + len, page', pagepos + len, |buf| - pos)
    else AfterRun(buf, pos + 1, page, pagepos + len, |buf| - pos)
  }

  function AfterRun(buf: seq<Byte>, pos: nat, page: seq<Byte>, pagepos: nat, ghost bound: nat): Decoded
    requires IsPage(page) && pos <= |buf| && |buf| - pos < bound
    decreases bound, 0
  {
    if pagepos < PAGE && pos < |buf| then DecodeRuns(buf, pos, page, pagepos)
    else if pagepos == PAGE then Ok(pos, page)
    else Bad
  }

  /** xc_compression_uncompress_page. */
  function Decode(buf: seq<Byte>, pos: nat, page: seq<Byte>): Decoded
    requires IsPage(page)
  {
    if pos >= |buf| then Bad
    else if buf[pos] == EMPTY then Ok(pos + 1, page)
    else if buf[pos] == FULL then
      if pos + PAGE + 1 > |buf| then Bad else Ok(pos + PAGE + 1, buf[pos + 1..pos + 1 + PAGE])
    else DecodeRuns(buf, pos, page, 0)
  }

  // --------------------------------------------------------------- round trip

  lemma {:induction false} RunUniform(now: seq<Byte>, was: seq<Byte>, s: nat, n: nat, i: nat)
    requires IsPage(now) && IsPage(was) && s < WORDS && 1 <= n <= MAXRUN && s + n <= WORDS
    requires forall j :: s <= j < s + n ==> Differs(now, was, j) == Differs(now, was, s)
    requires s <= i < s + RunLength(now, was, s, n)
    ensures Differs(now, was, i) == Differs(now, was, s)
    decreases WORDS - n
  {
    if n < MAXRUN && s + n < WORDS && Differs(now, was, s + n) == Differs(now, was, s) {
      RunUniform(now, was, s, n + 1, i);
    }
  }

  /** Words that do not differ are equal bytes. */
  lemma {:induction false} SameWords(now: seq<Byte>, was: seq<Byte>, s: nat, n: nat)
    requires IsPage(now) && IsPage(was) && s + n <= WORDS
    requires forall i :: s <= i < s + n ==> !Differs(now, was, i)
    ensures now[4 * s..4 * (s + n)] == was[4 * s..4 * (s + n)]
    decreases n
  {
    if n > 0 {
      SameWords(now, was, s, n - 1);
      var m := 4 * (s + n - 1);
      assert !Differs(now, was, s + n - 1);
      assert now[4 * s..m + 4] == now[4 * s..m] + now[m..m + 4];
      assert was[4 * s..m + 4] == was[4 * s..m] + was[m..m + 4];
    }
  }

  /** A page whose first `s` words are already new. */
  function Mixed(now: seq<Byte>, was: seq<Byte>, s: nat): (r: seq<Byte>)
    requires IsPage(now) && IsPage(was) && s <= WORDS
    ensures IsPage(r)
  {
    now[..4 * s] + was[4 * s..]
  }

  lemma MixedAll(now: seq<Byte>, was: seq<Byte>)
    requires IsPage(now) && IsPage(was)
    ensures Mixed(now, was, WORDS) == now && Mixed(now, was, 0) == was
  {
  }

  lemma MixedSkip(now: seq<Byte>, was: seq<Byte>, s: nat, n: nat)
    requires IsPage(now) && IsPage(was) && s + n <= WORDS
    requires forall i :: s <= i < s + n ==> !Differs(now, was, i)
    ensures Mixed(now, was, s + n) == Mixed(now, was, s)
  {
    SameWords(now, was, s, n);
    assert now[..4 * (s + n)] == now[..4 * s] + now[4 * s..4 * (s + n)];
    assert was[4 * s..] == was[4 * s..4 * (s + n)] + was[4 * (s + n)..];
  }

  lemma MixedCopy(now: seq<Byte>, was: seq<Byte>, s: nat, n: nat)
    requires IsPage(now) && IsPage(was) && s + n <= WORDS
    ensures var page := Mixed(now, was, s);
            page[..4 * s] + now[4 * s..4 * (s + n)] + page[4 * (s + n)..] == Mixed(now, was, s + n)
  {
  }

  /** The page a delta from `was` to `now` makes of `held`: the words that differ are those of `now`,
      the others stay. */
  function Overlay(now: seq<Byte>, was: seq<Byte>, held: seq<Byte>): (r: seq<Byte>)
    requires IsPage(now) && IsPage(was) && IsPage(held)
    ensures IsPage(r)
  {
    seq(PAGE, j requires 0 <= j < PAGE => if Differs(now, was, j / 4) then now[j] else held[j])
  }

  /** Every word in which the new page equals `was` also equals `held`. */
  predicate Keeps(now: seq<Byte>, was: seq<Byte>, held: seq<Byte>)
    requires IsPage(now) && IsPage(was) && IsPage(held)
  {
    forall i :: 0 <= i < WORDS && !Differs(now, was, i) ==> !Differs(now, held, i)
  }

  lemma OverlayAt(now: seq<Byte>, was: seq<Byte>, held: seq<Byte>, i: nat, j: nat)
    requires IsPage(now) && IsPage(was) && IsPage(held) && 4 * i <= j < 4 * i + 4 <= PAGE
    ensures Overlay(now, was, held)[j] == if Differs(now, was, i) then now[j] else held[j]
  {
    hide Differs;
    assert j / 4 == i;
  }

  lemma OverlayWord(now: seq<Byte>, was: seq<Byte>, held: seq<Byte>, i: nat)
    requires IsPage(now) && IsPage(was) && IsPage(held) && i < WORDS
    ensures var t := Overlay(now, was, held);
            if Differs(now, was, i) then !Differs(t, now, i) else !Differs(t, held, i)
  {
    hide Overlay;
    OverlayAt(now, was, held, i, 4 * i);
    OverlayAt(now, was, held, i, 4 * i + 1);
    OverlayAt(now, was, held, i, 4 * i + 2);
    OverlayAt(now, was, held, i, 4 * i + 3);
  }

  /** A delta gives a receiver the new page if and only if the receiver already has every word that
      the delta leaves out. */
  lemma OverlayIsNew(now: seq<Byte>, was: seq<Byte>, held: seq<Byte>)
    requires IsPage(now) && IsPage(was) && IsPage(held)
    ensures Overlay(now, was, held) == now <==> Keeps(now, was, held)
  {
    hide Overlay;
    var t := Overlay(now, was, held);
    if Keeps(now, was, held) {
      forall j | 0 <= j < PAGE
        ensures t[j] == now[j]
      {
        var i := j / 4;
        OverlayAt(now, was, held, i, j);
        assert j == 4 * i || j == 4 * i + 1 || j == 4 * i + 2 || j == 4 * i + 3;
        assert !Differs(now, was, i) ==> !Differs(now, held, i);
      }
    } else {
      var i :| 0 <= i < WORDS && !Differs(now, was, i) && Differs(now, held, i);
      OverlayWord(now, was, held, i);
    }
  }

  /** Over the page it was computed from, a delta is complete. */
  lemma OverlayOwn(now: seq<Byte>, was: seq<Byte>)
    requires IsPage(now) && IsPage(was)
    ensures Overlay(now, was, was) == now
  {
    OverlayIsNew(now, was, was);
  }

  /** Equal pages make an empty delta. */
  lemma OverlayNothing(now: seq<Byte>, held: seq<Byte>)
    requires IsPage(now) && IsPage(held)
    ensures Overlay(now, now, held) == held
  {
    hide Overlay;
    forall j | 0 <= j < PAGE
      ensures Overlay(now, now, held)[j] == held[j]
    {
      OverlayAt(now, now, held, j / 4, j);
    }
  }

  /** The bytes of `buf` from `pos` on are `code`. */
  predicate HoldsAt(buf: seq<Byte>, pos: nat, code: seq<Byte>) {
    pos + |code| <= |buf| && forall i :: 0 <= i < |code| ==> buf[pos + i] == code[i]
  }

  lemma HoldsHead(buf: seq<Byte>, pos: nat, code: seq<Byte>)
    requires code != [] && HoldsAt(buf, pos, code)
    ensures buf[pos] == code[0]
  {
    assert buf[pos + 0] == code[0];
  }

  lemma HoldsParts(buf: seq<Byte>, pos: nat, code: seq<Byte>, head: seq<Byte>, rest: seq<Byte>)
    requires code == head + rest && HoldsAt(buf, pos, code)
    ensures |code| == |head| + |rest|
    ensures HoldsAt(buf, pos, head) && HoldsAt(buf, pos + |head|, rest)
  {
    assert forall i :: 0 <= i < |head| ==> head[i] == code[i];
    assert forall i :: 0 <= i < |rest| ==> rest[i] == code[|head| + i];
  }

  /** The decoder gets from one place to the other by one run. */
  predicate Advances(buf: seq<Byte>, pos: nat, page: seq<Byte>, at: nat, pos': nat, page': seq<Byte>, at': nat) {
    && IsPage(page) && IsPage(page') && pos < pos' <= |buf| && at < PAGE
    && DecodeRuns(buf, pos, page, at) == AfterRun(buf, pos', page', at', |buf| - pos)
  }

  /** The buffer holds, at `pos`, the run that starts at word `s`. */
  predicate RunAt(buf: seq<Byte>, pos: nat, now: seq<Byte>, was: seq<Byte>, s: nat)
    requires IsPage(now) && IsPage(was) && s < WORDS
  {
    var n := RunLength(now, was, s, 1);
    if Differs(now, was, s) then
      && pos + 1 + 4 * n <= |buf| && buf[pos] == n
      && forall i :: 4 * s <= i < 4 * (s + n) ==> now[i] == buf[pos + 1 + i - 4 * s]
    else pos < |buf| && buf[pos] == SKIP + n
  }

  lemma RunCodeAt(buf: seq<Byte>, pos: nat, now: seq<Byte>, was: seq<Byte>, s: nat)
    requires IsPage(now) && IsPage(was) && s < WORDS && HoldsAt(buf, pos, RunCode(now, was, s))
    ensures RunAt(buf, pos, now, was, s)
  {
    HoldsHead(buf, pos, RunCode(now, was, s));
    if Differs(now, was, s) {
      var n := RunLength(now, was, s, 1);
      var data := now[4 * s..4 * (s + n)];
      HoldsParts(buf, pos, [n] + data, [n], data);
      forall i | 4 * s <= i < 4 * (s + n)
        ensures now[i] == buf[pos + 1 + i - 4 * s]
      {
        assert data[i - 4 * s] == buf[pos + 1 + (i - 4 * s)];
      }
    }
  }

  lemma DecodeCopyRun(now: seq<Byte>, was: seq<Byte>, s: nat, n: nat, buf: seq<Byte>, pos: nat)
    requires IsPage(now) && IsPage(was) && 1 <= n <= MAXRUN && s + n <= WORDS
    requires pos + 1 + 4 * n <= |buf| && buf[pos] == n
    requires forall i :: 4 * s <= i < 4 * (s + n) ==> now[i] == buf[pos + 1 + i - 4 * s]
    ensures Advances(buf, pos, Mixed(now, was, s), 4 * s, pos + 1 + 4 * n, Mixed(now, was, s + n), 4 * (s + n))
  {
    var data := buf[pos + 1..pos + 1 + 4 * n];
    forall i | 0 <= i < 4 * n
      ensures data[i] == now[4 * s..4 * (s + n)][i]
    {
      assert now[4 * s + i] == buf[pos + 1 + i];
    }
    assert data == now[4 * s..4 * (s + n)];
    MixedCopy(now, was, s, n);
  }

  lemma DecodeSkipRun(now: seq<Byte>, was: seq<Byte>, s: nat, n: nat, buf: seq<Byte>, pos: nat)
    requires IsPage(now) && IsPage(was) && 1 <= n <= MAXRUN && s + n <= WORDS
    requires forall i :: s <= i < s + n ==> !Differs(now, was, i)
    requires pos < |buf| && buf[pos] == SKIP + n
    ensures Advances(buf, pos, Mixed(now, was, s), 4 * s, pos + 1, Mixed(now, was, s + n), 4 * (s + n))
  {
    MixedSkip(now, was, s, n);
  }

  lemma RunKind(now: seq<Byte>, was: seq<Byte>, s: nat)
    requires IsPage(now) && IsPage(was) && s < WORDS
    ensures forall i :: s <= i < s + RunLength(now, was, s, 1) ==> Differs(now, was, i) == Differs(now, was, s)
  {
    forall i | s <= i < s + RunLength(now, was, s, 1)
      ensures Differs(now, was, i) == Differs(now, was, s)
    {
      RunUniform(now, was, s, 1, i);
    }
  }

  lemma OverlayCopied(now: seq<Byte>, was: seq<Byte>, held: seq<Byte>, s: nat, n: nat)
    requires IsPage(now) && IsPage(was) && IsPage(held) && s + n <= WORDS
    requires forall i :: s <= i < s + n ==> Differs(now, was, i)
    ensures forall j :: 4 * s <= j < 4 * (s + n) ==> Overlay(now, was, held)[j] == now[j]
  {
    forall j | 4 * s <= j < 4 * (s + n)
      ensures Overlay(now, was, held)[j] == now[j]
    {
      OverlayAt(now, was, held, j / 4, j);
    }
  }

  lemma OverlaySkipped(now: seq<Byte>, was: seq<Byte>, held: seq<Byte>, s: nat, n: nat)
    requires IsPage(now) && IsPage(was) && IsPage(held) && s + n <= WORDS
    requires forall i :: s <= i < s + n ==> !Differs(now, was, i)
    ensures forall i :: s <= i < s + n ==> !Differs(Overlay(now, was, held), held, i)
  {
    forall i | s <= i < s + n
      ensures !Differs(Overlay(now, was, held), held, i)
    {
      OverlayWord(now, was, held, i);
    }
  }

  /** One run, over a page that is already overlaid up to there. */
  lemma DecodeOneRun(now: seq<Byte>, was: seq<Byte>, held: seq<Byte>, t: seq<Byte>, s: nat, n: nat, size: nat,
                     buf: seq<Byte>, pos: nat)
    requires IsPage(now) && IsPage(was) && IsPage(held) && s < WORDS && RunAt(buf, pos, now, was, s)
    requires t == Overlay(now, was, held) && n == RunLength(now, was, s, 1) && size == RunSize(now, was, s)
    ensures Advances(buf, pos, Mixed(t, held, s), 4 * s, pos + size, Mixed(t, held, s + n), 4 * (s + n))
  {
    hide Overlay, Mixed, Advances, RunLength;
    RunKind(now, was, s);
    if Differs(now, was, s) {
      OverlayCopied(now, was, held, s, n);
      DecodeCopyRun(t, held, s, n, buf, pos);
    } else {
      OverlaySkipped(now, was, held, s, n);
      DecodeSkipRun(t, held, s, n, buf, pos);
    }
  }

  /** From here the decoder ends well. */
  predicate Finishes(buf: seq<Byte>, pos: nat, page: seq<Byte>, at: nat, end: nat, result: seq<Byte>) {
    IsPage(page) && pos < |buf| && at < PAGE && DecodeRuns(buf, pos, page, at) == Ok(end, result)
  }

  lemma LastRun(buf: seq<Byte>, pos: nat, page: seq<Byte>, at: nat, pos': nat, page': seq<Byte>)
    requires Advances(buf, pos, page, at, pos', page', PAGE)
    ensures Finishes(buf, pos, page, at, pos', page')
  {
  }

  lemma NextRun(buf: seq<Byte>, pos: nat, page: seq<Byte>, at: nat,
                pos': nat, page': seq<Byte>, at': nat, end: nat, result: seq<Byte>)
    requires Advances(buf, pos, page, at, pos', page', at') && Finishes(buf, pos', page', at', end, result)
    ensures Finishes(buf, pos, page, at, end, result)
  {
  }

  /** The number of bytes the encoding of the words from `s` on takes. */
  function SizeFrom(now: seq<Byte>, was: seq<Byte>, s: nat): nat
    requires IsPage(now) && IsPage(was) && s <= WORDS
    decreases |now| - s
  {
    if s == WORDS then 0
    else RunSize(now, was, s) + SizeFrom(now, was, s + RunLength(now, was, s, 1))
  }

  lemma {:induction false} EncodedLength(now: seq<Byte>, was: seq<Byte>, s: nat)
    requires IsPage(now) && IsPage(was) && s <= WORDS
    ensures |EncodeFrom(now, was, s)| == SizeFrom(now, was, s)
    decreases WORDS - s
  {
    if s < WORDS {
      EncodedLength(now, was, s + RunLength(now, was, s, 1));
    }
  }

  /** The buffer holds, from `pos` to `end`, the encoding of the words from `s` on. */
  predicate RestAt(buf: seq<Byte>, pos: nat, end: nat, now: seq<Byte>, was: seq<Byte>, s: nat)
    requires IsPage(now) && IsPage(was) && s <= WORDS
  {
    HoldsAt(buf, pos, EncodeFrom(now, was, s)) && end == pos + |EncodeFrom(now, was, s)|
  }

  lemma SplitRun(now: seq<Byte>, was: seq<Byte>, s: nat, code: seq<Byte>, rest: seq<Byte>, buf: seq<Byte>, pos: nat)
    requires IsPage(now) && IsPage(was) && s < WORDS && HoldsAt(buf, pos, code)
    requires code == RunCode(now, was, s) + rest
    ensures RunAt(buf, pos, now, was, s) && HoldsAt(buf, pos + RunSize(now, was, s), rest)
    ensures |code| == RunSize(now, was, s) + |rest|
  {
    HoldsParts(buf, pos, code, RunCode(now, was, s), rest);
    assert |RunCode(now, was, s)| == RunSize(now, was, s);
    RunCodeAt(buf, pos, now, was, s);
  }

  lemma FirstRun(now: seq<Byte>, was: seq<Byte>, s: nat, n: nat, size: nat, buf: seq<Byte>, pos: nat, end: nat)
    requires IsPage(now) && IsPage(was) && s < WORDS && RestAt(buf, pos, end, now, was, s)
    requires n == RunLength(now, was, s, 1) && size == RunSize(now, was, s)
    ensures RunAt(buf, pos, now, was, s) && RestAt(buf, pos + size, end, now, was, s + n)
    ensures s + n == WORDS ==> end == pos + size
  {
    hide RunCode, RunSize, RunAt, HoldsAt, RunLength;
    SplitRun(now, was, s, EncodeFrom(now, was, s), EncodeFrom(now, was, s + n), buf, pos);
  }

  lemma RunThenRest(now: seq<Byte>, was: seq<Byte>, held: seq<Byte>, t: seq<Byte>, s: nat, n: nat, size: nat,
                    buf: seq<Byte>, pos: nat, end: nat)
    requires IsPage(now) && IsPage(was) && IsPage(held) && s < WORDS && RunAt(buf, pos, now, was, s)
    requires t == Overlay(now, was, held) && n == RunLength(now, was, s, 1) && size == RunSize(now, was, s)
    requires if s + n < WORDS then Finishes(buf, pos + size, Mixed(t, held, s + n), 4 * (s + n), end, t)
             else end == pos + size
    ensures Finishes(buf, pos, Mixed(t, held, s), 4 * s, end, t)
  {
    var page, page' := Mixed(t, held, s), Mixed(t, held, s + n);
    DecodeOneRun(now, was, held, t, s, n, size, buf, pos);
    hide Overlay, RunAt, RunSize;
    if s + n < WORDS {
      NextRun(buf, pos, page, 4 * s, pos + size, page', 4 * (s + n), end, t);
    } else {
      MixedAll(t, held);
      LastRun(buf, pos, page, 4 * s, end, t);
    }
  }

  /** Decoding the encoding of the words from `s` on, over a page that is overlaid up to there, gives
      the overlaid page and stops right behind the encoding, whatever surrounds it. */
  lemma {:induction false} DecodeRest(now: seq<Byte>, was: seq<Byte>, held: seq<Byte>, t: seq<Byte>, s: nat,
                                      buf: seq<Byte>, pos: nat, end: nat)
    requires IsPage(now) && IsPage(was) && IsPage(held) && t == Overlay(now, was, held)
    requires s < WORDS && RestAt(buf, pos, end, now, was, s)
    ensures Finishes(buf, pos, Mixed(t, held, s), 4 * s, end, t)
    decreases WORDS - s
  {
    hide EncodeFrom, DecodeRuns, RunAt, RunSize, Mixed, HoldsAt, RestAt, Finishes, Overlay;
    var n, size := RunLength(now, was, s, 1), RunSize(now, was, s);
    FirstRun(now, was, s, n, size, buf, pos, end);
    if s + n < WORDS {
      DecodeRest(now, was, held, t, s + n, buf, pos + size, end);
    }
    RunThenRest(now, was, held, t, s, n, size, buf, pos, end);
  }

  lemma HoldsMiddle(pre: seq<Byte>, code: seq<Byte>, suf: seq<Byte>)
    ensures HoldsAt(pre + code + suf, |pre|, code)
    ensures code != [] ==> (pre + code + suf)[|pre|] == code[0]
  {
  }

  lemma DecodeDelta(now: seq<Byte>, was: seq<Byte>, held: seq<Byte>, buf: seq<Byte>, pos: nat, end: nat)
    requires IsPage(now) && IsPage(was) && IsPage(held) && RestAt(buf, pos, end, now, was, 0)
    ensures Finishes(buf, pos, held, 0, end, Overlay(now, was, held))
  {
    var t := Overlay(now, was, held);
    MixedAll(t, held);
    DecodeRest(now, was, held, t, 0, buf, pos, end);
  }

  /** A delta is never taken for the marker of a full page, and for that of an empty page only
      when nothing changed. */
  lemma MarkersDistinct(now: seq<Byte>, was: seq<Byte>)
    requires IsPage(now) && IsPage(was)
    ensures Encode(now, was) != [] && Encode(now, was)[0] != FULL
    ensures Encode(now, was)[0] == EMPTY <==> now == was
  {
  }

  /** Decoding an encoded delta over any page overlays it, consumes exactly the emitted bytes and
      ignores what surrounds them. */
  lemma DecodeOver(now: seq<Byte>, was: seq<Byte>, held: seq<Byte>, pre: seq<Byte>, suf: seq<Byte>)
    requires IsPage(now) && IsPage(was) && IsPage(held)
    ensures (Decode(pre + Encode(now, was) + suf, |pre|, held)
             == Ok(|pre| + |Encode(now, was)|, Overlay(now, was, held)))
  {
    var code := Encode(now, was);
    MarkersDistinct(now, was);
    HoldsMiddle(pre, code, suf);
    hide Overlay;
    if now == was {
      OverlayNothing(now, held);
    } else {
      DecodeDelta(now, was, held, pre + code + suf, |pre|, |pre| + |code|);
    }
  }

  /** Round trip: decoding an encoded delta over the old page gives the new page, consumes exactly
      the emitted bytes and ignores what follows them. */
  lemma RoundTrip(now: seq<Byte>, was: seq<Byte>, pre: seq<Byte>, suf: seq<Byte>)
    requires IsPage(now) && IsPage(was)
    ensures Decode(pre + Encode(now, was) + suf, |pre|, was) == Ok(|pre| + |Encode(now, was)|, now)
  {
    hide Decode, Encode, Overlay;
    DecodeOver(now, was, was, pre, suf);
    OverlayOwn(now, was);
  }

  lemma RoundTripFull(now: seq<Byte>, was: seq<Byte>, pre: seq<Byte>, suf: seq<Byte>)
    requires IsPage(now) && IsPage(was)
    ensures Decode(pre + EncodeFull(now) + suf, |pre|, was) == Ok(|pre| + PAGE + 1, now)
  {
    var buf := pre + EncodeFull(now) + suf;
    assert buf[|pre|] == FULL;
    assert buf[|pre| + 1..|pre| + 1 + PAGE] == now;
  }

  // -------------------------------------------------------------- worst case

  function Headers(w: nat): nat {
    (w + MAXRUN - 1) / MAXRUN
  }

  /** A run that stops early is followed by a run of the other kind. */
  lemma {:induction false} RunStops(now: seq<Byte>, was: seq<Byte>, s: nat, n: nat)
    requires IsPage(now) && IsPage(was) && s < WORDS && 1 <= n <= MAXRUN && s + n <= WORDS
    ensures var r := RunLength(now, was, s, n);
            r == MAXRUN || s + r == WORDS || Changed(now, was, s + r) != Changed(now, was, s)
    decreases WORDS - n
  {
    if n < MAXRUN && s + n < WORDS && Differs(now, was, s + n) == Differs(now, was, s) {
      RunStops(now, was, s, n + 1);
    }
  }

  /** `w` words take no more than their bytes and one header for each full run; three bytes less
      when they begin with a run that is skipped. */
  predicate Fits(size: nat, w: nat, changed: bool) {
    size <= 4 * w + Headers(w) - (if w > 0 && !changed then 3 else 0)
  }

  /** A short run costs a header more, but a skipped run, before or after it, pays for that. */
  lemma FitsStep(size: nat, w: nat, n: nat, changed: bool, next: bool)
    requires 1 <= n <= w && (n == MAXRUN || n == w || next != changed)
    requires Fits(size, w - n, next)
    ensures Fits((if changed then 1 + 4 * n else 1) + size, w, changed)
  {
    assert n == MAXRUN ==> Headers(w - n) + 1 == Headers(w);
  }

  predicate Changed(now: seq<Byte>, was: seq<Byte>, s: nat)
    requires IsPage(now) && IsPage(was) && s <= WORDS
  {
    s < WORDS && Differs(now, was, s)
  }

  lemma {:induction false} EncodedSize(now: seq<Byte>, was: seq<Byte>, s: nat)
    requires IsPage(now) && IsPage(was) && s <= WORDS
    ensures Fits(SizeFrom(now, was, s), WORDS - s, Changed(now, was, s))
    decreases WORDS - s
  {
    if s < WORDS {
      var n := RunLength(now, was, s, 1);
      EncodedSize(now, was, s + n);
      RunStops(now, was, s, 1);
      FitsStep(SizeFrom(now, was, s + n), WORDS - s, n, Changed(now, was, s), Changed(now, was, s + n));
    }
  }

  /** The one space check at the start of compress_page suffices for every pair of pages. */
  lemma WorstCase(now: seq<Byte>, was: seq<Byte>)
    requires IsPage(now) && IsPage(was)
    ensures 1 <= |Encode(now, was)| <= WORST
  {
    EncodedSize(now, was, 0);
    EncodedLength(now, was, 0);
    MarkersDistinct(now, was);
  }
}
