/** The Yay0 file format: three interleaved streams of mask bits, links and chunks. */
module Yay0Format {
  import opened Bits
  import opened Bytes

  /** What one mask bit announces: a byte, or a copy of count bytes found offset back. */
  datatype Token = Literal(b: byte) | Link(offset: nat, count: nat)

  predicate ValidToken(t: Token) {
    t.Link? ==> 1 <= t.offset <= 0x1000 && 3 <= t.count <= 273
  }

  // ---- what the tokens mean

  /** Appends count bytes, each copied from offset back; the copy may overlap itself. */
  function Replay(out: seq<byte>, offset: nat, count: nat): (r: seq<byte>)
    requires 1 <= offset <= |out|
    ensures |r| == |out| + count && r[..|out|] == out
    decreases count
  {
    if count == 0 then out else Replay(out + [out[|out| - offset]], offset, count - 1)
  }

  /** The bytes a list of tokens stands for, or nothing if a link points before the start. */
  predicate Expands(ts: seq<Token>, out: seq<byte>)
    decreases |ts|
  {
    if ts == [] then out == []
    else
      var t := ts[|ts| - 1];
      match t
      case Literal(b) => out != [] && out[|out| - 1] == b && Expands(ts[..|ts| - 1], out[..|out| - 1])
      case Link(o, c) =>
        && c <= |out| && 1 <= o <= |out| - c
        && out == Replay(out[..|out| - c], o, c) && Expands(ts[..|ts| - 1], out[..|out| - c])
  }

  // ---- how they are stored

  function Be16(v: nat): seq<byte>
    requires v < 0x1_0000
  {
    [(v / 0x100) as byte, (v % 0x100) as byte]
  }

  function Be32(v: nat): seq<byte> {
    Be16((v / 0x1_0000) % 0x1_0000) + Be16(v % 0x1_0000)
  }

  function LinkEntry(t: Token): seq<byte>
    requires ValidToken(t)
  {
    if t.Literal? then [] else Be16((if t.count >= 18 then 0 else t.count - 2) * 0x1000 + (t.offset - 1))
  }

  function ChunkEntry(t: Token): seq<byte>
    requires ValidToken(t)
  {
    if t.Literal? then [t.b] else if t.count >= 18 then [(t.count - 18) as byte] else []
  }

  /** The bytes of a token: 4 bits of length and 12 of distance, and a length byte for long links. */
  lemma EntryBytes(t: Token)
    requires ValidToken(t)
    ensures t.Literal? ==> LinkEntry(t) == [] && ChunkEntry(t) == [t.b]
    ensures t.Link? && t.count < 18 ==>
              && |LinkEntry(t)| == 2 && LinkEntry(t)[0] as nat == 16 * (t.count - 2) + (t.offset - 1) / 256
              && LinkEntry(t)[1] as nat == (t.offset - 1) % 256 && ChunkEntry(t) == []
    ensures t.Link? && t.count >= 18 ==>
              && |LinkEntry(t)| == 2 && LinkEntry(t)[0] as nat == (t.offset - 1) / 256
              && LinkEntry(t)[1] as nat == (t.offset - 1) % 256
              && |ChunkEntry(t)| == 1 && ChunkEntry(t)[0] as nat == t.count - 18
  {
  }

  predicate ValidTokens(ts: seq<Token>) {
    forall i :: 0 <= i < |ts| ==> ValidToken(ts[i])
  }

  function Links(ts: seq<Token>): seq<byte>
    requires ValidTokens(ts)
  {
    if ts == [] then [] else Links(ts[..|ts| - 1]) + LinkEntry(ts[|ts| - 1])
  }

  function Chunks(ts: seq<Token>): seq<byte>
    requires ValidTokens(ts)
  {
    if ts == [] then [] else Chunks(ts[..|ts| - 1]) + ChunkEntry(ts[|ts| - 1])
  }

  /** Whether bit k of a byte is set. */
  predicate Digit(x: byte, k: nat) {
    (x as int / Pow2(k)) % 2 == 1
  }

  /** Bit i of a string of bytes, the most significant bit of a byte first. */
  function MaskBit(data: seq<byte>, i: nat): bool
    requires i < 8 * |data|
  {
    Digit(data[i / 8], 7 - i % 8)
  }

  predicate MasksOf(ts: seq<Token>, data: seq<byte>) {
    && |data| == (|ts| + 7) / 8
    && forall i :: 0 <= i < |ts| ==> MaskBit(data, i) == ts[i].Literal?
  }

  const MAGIC: seq<byte> := [0x59, 0x61, 0x79, 0x30]

  /** The file for a list of tokens, their mask bits and the length of their expansion. */
  function File(ts: seq<Token>, masks: seq<byte>, size: nat): seq<byte>
    requires ValidTokens(ts)
  {
    MAGIC + Be32(size) + Be32(16 + |masks|) + Be32(16 + |masks| + |Links(ts)|) + masks + Links(ts) + Chunks(ts)
  }

  // ---- reading a file

  datatype Result = Ok(out: seq<byte>) | NotYay0 | Invalid

  function At16(input: seq<byte>, i: nat): nat
    requires i + 2 <= |input|
  {
    input[i] as nat * 0x100 + input[i + 1] as nat
  }

  function At32(input: seq<byte>, i: nat): nat
    requires i + 4 <= |input|
  {
    At16(input, i) * 0x1_0000 + At16(input, i + 2)
  }

  const WRAP: nat := 0x1_0000_0000

  /** Where the decoder is: the bytes produced, the mask bits used up, and the 32-bit
      offsets of the next link and the next chunk. */
  datatype Cursor = Cursor(out: seq<byte>, bit: nat, links: nat, chunks: nat)

  datatype Option<T> = None | Some(value: T)

  /** One round of the decoding loop, or nothing if it meets an invalid offset. */
  function Round(input: seq<byte>, c: Cursor): (r: Option<Cursor>)
    ensures r.Some? ==> |c.out| < |r.value.out| <= |c.out| + 273
  {
    if 16 + c.bit / 8 >= |input| then None
    else if MaskBit(input, 128 + c.bit) then
      if c.chunks >= |input| then None
      else Some(Cursor(c.out + [input[c.chunks]], c.bit + 1, c.links, (c.chunks + 1) % WRAP))
    else if c.links + 2 > |input| then None
    else
      var link := At16(input, c.links);
      var long := link / 0x1000 == 0;
      if long && c.chunks >= |input| then None
      else
        var count := if long then input[c.chunks] as nat + 18 else link / 0x1000 + 2;
        var offset := link % 0x1000 + 1;
        if offset > |c.out| then None
        else
          Some(Cursor(Replay(c.out, offset, count), c.bit + 1, (c.links + 2) % WRAP,
                      if long then (c.chunks + 1) % WRAP else c.chunks))
  }

  function DecodeFrom(input: seq<byte>, size: nat, c: Cursor): Result
    decreases if |c.out| < size then size - |c.out| else 0
  {
    if |c.out| >= size then Ok(c.out)
    else
      match Round(input, c)
      case None => Invalid
      case Some(d) => DecodeFrom(input, size, d)
  }

  /** The first byte that differs from the signature decides; a file too short to
      contain one, or the rest of the header, is invalid. */
  function Decode(input: seq<byte>): Result {
    if |input| >= 4 && input[..4] != MAGIC then NotYay0
    else if |input| < 4 && !(input <= MAGIC) then NotYay0
    else if |input| < 16 then Invalid
    else DecodeFrom(input, At32(input, 4), Cursor([], 0, At32(input, 8), At32(input, 12)))
  }

  // ---- decoding undoes encoding

  function Width(t: Token): nat {
    if t.Literal? then 1 else t.count
  }

  function Size(ts: seq<Token>): nat {
    if ts == [] then 0 else Size(ts[..|ts| - 1]) + Width(ts[|ts| - 1])
  }

  lemma {:induction false} ExpandsPrefix(ts: seq<Token>, out: seq<byte>, k: nat)
    requires Expands(ts, out) && k <= |ts|
    ensures |out| == Size(ts) && Size(ts[..k]) <= |out| && Expands(ts[..k], out[..Size(ts[..k])])
    decreases |ts|
  {
    if k == |ts| {
      assert ts[..k] == ts;
      if ts != [] {
        ExpandsPrefix(ts[..k - 1], out[..|out| - Width(ts[k - 1])], k - 1);
        assert ts[..k - 1][..k - 1] == ts[..k - 1];
      }
      assert out[..|out|] == out;
    } else {
      var us := ts[..|ts| - 1];
      ExpandsPrefix(us, out[..|out| - Width(ts[|ts| - 1])], k);
      assert us[..k] == ts[..k];
      assert out[..|out| - Width(ts[|ts| - 1])][..Size(ts[..k])] == out[..Size(ts[..k])];
    }
  }

  /** The streams of a prefix of the tokens are prefixes of the streams. */
  lemma {:induction false} StreamPrefix(ts: seq<Token>, k: nat)
    requires ValidTokens(ts) && k <= |ts|
    ensures Links(ts[..k]) <= Links(ts) && Chunks(ts[..k]) <= Chunks(ts)
    decreases |ts|
  {
    if k == |ts| {
      assert ts[..k] == ts;
    } else {
      StreamPrefix(ts[..|ts| - 1], k);
      assert ts[..|ts| - 1][..k] == ts[..k];
    }
  }

  lemma StreamNext(ts: seq<Token>, k: nat)
    requires ValidTokens(ts) && k < |ts|
    ensures Links(ts[..k + 1]) == Links(ts[..k]) + LinkEntry(ts[k])
    ensures Chunks(ts[..k + 1]) == Chunks(ts[..k]) + ChunkEntry(ts[k])
    ensures Links(ts[..k + 1]) <= Links(ts) && Chunks(ts[..k + 1]) <= Chunks(ts)
  {
    assert ts[..k + 1][..k] == ts[..k];
    StreamPrefix(ts, k + 1);
  }

  /** f contains e at index at. */
  predicate Holds(f: seq<byte>, at: nat, e: seq<byte>) {
    at + |e| <= |f| && forall i {:trigger e[i]} :: 0 <= i < |e| ==> f[at + i] == e[i]
  }

  lemma HoldsPart(f: seq<byte>, at: nat, s: seq<byte>, p: seq<byte>, e: seq<byte>)
    requires Holds(f, at, s) && p + e <= s
    ensures Holds(f, at + |p|, e)
  {
    forall i | 0 <= i < |e| ensures f[at + |p| + i] == e[i] {
      assert e[i] == (p + e)[|p| + i] == s[|p| + i];
    }
  }

  lemma HoldsAppend(f: seq<byte>, at: nat, e: seq<byte>, g: seq<byte>)
    requires Holds(f, at, e)
    ensures Holds(f + g, at, e)
  {
  }

  lemma HoldsEnd(f: seq<byte>, e: seq<byte>)
    ensures Holds(f + e, |f|, e)
  {
  }

  /** Seven pieces in a row. */
  lemma HoldsPieces(m: seq<byte>, a: seq<byte>, b: seq<byte>, c: seq<byte>, k: seq<byte>, l: seq<byte>, d: seq<byte>)
    ensures var f := m + a + b + c + k + l + d;
      && Holds(f, |m|, a) && Holds(f, |m| + |a|, b) && Holds(f, |m| + |a| + |b|, c)
      && Holds(f, |m| + |a| + |b| + |c|, k) && Holds(f, |m| + |a| + |b| + |c| + |k|, l)
      && Holds(f, |m| + |a| + |b| + |c| + |k| + |l|, d)
  {
    hide Holds;
    var f1 := m + a; var f2 := f1 + b; var f3 := f2 + c; var f4 := f3 + k; var f5 := f4 + l;
    HoldsEnd(m, a);
    HoldsAppend(f1, |m|, a, b); HoldsEnd(f1, b);
    HoldsAppend(f2, |m|, a, c); HoldsAppend(f2, |f1|, b, c); HoldsEnd(f2, c);
    HoldsAppend(f3, |m|, a, k); HoldsAppend(f3, |f1|, b, k); HoldsAppend(f3, |f2|, c, k); HoldsEnd(f3, k);
    HoldsAppend(f4, |m|, a, l); HoldsAppend(f4, |f1|, b, l); HoldsAppend(f4, |f2|, c, l); HoldsAppend(f4, |f3|, k, l);
        HoldsEnd(f4, l);
    HoldsAppend(f5, |m|, a, d); HoldsAppend(f5, |f1|, b, d); HoldsAppend(f5, |f2|, c, d); HoldsAppend(f5, |f3|, k, d);
    HoldsAppend(f5, |f4|, l, d); HoldsEnd(f5, d);
  }

  /** Where the parts of a file lie. */
  lemma FileParts(ts: seq<Token>, masks: seq<byte>, size: nat)
    requires ValidTokens(ts)
    ensures var f, l := File(ts, masks, size), 16 + |masks|;
      && |f| == l + |Links(ts)| + |Chunks(ts)| && f[..4] == MAGIC
      && Holds(f, 4, Be32(size)) && Holds(f, 8, Be32(l)) && Holds(f, 12, Be32(l + |Links(ts)|))
      && Holds(f, 16, masks) && Holds(f, l, Links(ts)) && Holds(f, l + |Links(ts)|, Chunks(ts))
  {
    hide Holds, Links, Chunks;
    HoldsPieces(MAGIC, Be32(size), Be32(16 + |masks|), Be32(16 + |masks| + |Links(ts)|), masks, Links(ts), Chunks(ts));
  }

  /** Where the decoder is after the first k tokens. */
  function CursorAt(ts: seq<Token>, masks: seq<byte>, out: seq<byte>, k: nat): Cursor
    requires ValidTokens(ts) && k <= |ts| && Size(ts[..k]) <= |out|
  {
    var l := 16 + |masks|;
    Cursor(out[..Size(ts[..k])], k, (l + |Links(ts[..k])|) % WRAP, (l + |Links(ts)| + |Chunks(ts[..k])|) % WRAP)
  }

  lemma MaskShift(f: seq<byte>, masks: seq<byte>, i: nat)
    requires Holds(f, 16, masks) && i < 8 * |masks|
    ensures MaskBit(f, 128 + i) == MaskBit(masks, i)
  {
    assert (128 + i) / 8 == 16 + i / 8 && (128 + i) % 8 == i % 8;
    assert f[16 + i / 8] == masks[i / 8];
  }

  /** What the k-th token adds to the output. */
  lemma NextOutput(ts: seq<Token>, out: seq<byte>, k: nat)
    requires Expands(ts, out) && k < |ts| && ValidToken(ts[k])
    ensures Size(ts[..k + 1]) == Size(ts[..k]) + Width(ts[k]) <= |out|
    ensures Extended(out[..Size(ts[..k])], ts[k], out[..Size(ts[..k + 1])])
  {
    ExpandsPrefix(ts, out, k + 1);
    hide Replay;
    var us := ts[..k + 1];
    assert us[..k] == ts[..k] && us[|us| - 1] == ts[k];
    var o := out[..Size(us)];
    LastToken(us, o);
    assert o[..|o| - Width(ts[k])] == out[..Size(ts[..k])];
  }

  /** r is out followed by what the token stands for. */
  predicate Extended(out: seq<byte>, t: Token, r: seq<byte>) {
    match t
    case Literal(b) => r == out + [b]
    case Link(o, c) => 1 <= o <= |out| && r == Replay(out, o, c)
  }

  lemma LastToken(ts: seq<Token>, out: seq<byte>)
    requires Expands(ts, out) && ts != []
    ensures Width(ts[|ts| - 1]) <= |out| && Extended(out[..|out| - Width(ts[|ts| - 1])], ts[|ts| - 1], out)
  {
    hide Replay;
    if ts[|ts| - 1].Literal? {
      assert out == out[..|out| - 1] + [out[|out| - 1]];
    }
  }

  /** What the decoder finds in the file for the k-th token. */
  lemma NextInput(ts: seq<Token>, masks: seq<byte>, size: nat, k: nat)
    requires ValidTokens(ts) && MasksOf(ts, masks) && k < |ts|
    ensures var f, l := File(ts, masks, size), 16 + |masks|;
      && 16 + k / 8 < l <= |f| && MaskBit(f, 128 + k) == ts[k].Literal?
      && Holds(f, l + |Links(ts[..k])|, LinkEntry(ts[k]))
      && Holds(f, l + |Links(ts)| + |Chunks(ts[..k])|, ChunkEntry(ts[k]))
  {
    hide File, LinkEntry, ChunkEntry, Links, Chunks, Holds;
    FileParts(ts, masks, size);
    StreamNext(ts, k);
    var f, l := File(ts, masks, size), 16 + |masks|;
    HoldsPart(f, l, Links(ts), Links(ts[..k]), LinkEntry(ts[k]));
    HoldsPart(f, l + |Links(ts)|, Chunks(ts), Chunks(ts[..k]), ChunkEntry(ts[k]));
    hide MaskBit;
    MaskShift(f, masks, k);
  }

  lemma RoundLiteral(f: seq<byte>, c: Cursor, t: Token)
    requires t.Literal? && 16 + c.bit / 8 < |f| && MaskBit(f, 128 + c.bit) && Holds(f, c.chunks, [t.b])
    ensures Round(f, c) == Some(Cursor(c.out + [t.b], c.bit + 1, c.links, (c.chunks + 1) % WRAP))
  {
    assert f[c.chunks + 0] == [t.b][0];
  }

  lemma LinkFields(f: seq<byte>, links: nat, chunks: nat, t: Token)
    requires ValidToken(t) && t.Link? && Holds(f, links, LinkEntry(t)) && Holds(f, chunks, ChunkEntry(t))
    ensures |LinkEntry(t)| == 2 && links + 2 <= |f|
    ensures At16(f, links) % 0x1000 + 1 == t.offset
    ensures At16(f, links) / 0x1000 == if t.count >= 18 then 0 else t.count - 2
    ensures t.count >= 18 ==> |ChunkEntry(t)| == 1 && chunks < |f| && f[chunks] as nat + 18 == t.count
    ensures t.count < 18 ==> |ChunkEntry(t)| == 0
  {
    var e, d := LinkEntry(t), ChunkEntry(t);
    assert f[links + 0] == e[0] && f[links + 1] == e[1];
    if t.count >= 18 {
      assert f[chunks + 0] == d[0];
    }
  }

  lemma RoundLink(f: seq<byte>, c: Cursor, t: Token)
    requires ValidToken(t) && t.Link? && 16 + c.bit / 8 < |f| && !MaskBit(f, 128 + c.bit) && t.offset <= |c.out|
    requires Holds(f, c.links, LinkEntry(t)) && Holds(f, c.chunks, ChunkEntry(t)) && c.chunks < WRAP
    ensures Round(f, c)
      == Some(Cursor(Replay(c.out, t.offset, t.count), c.bit + 1, (c.links + 2) % WRAP,
          (c.chunks + |ChunkEntry(t)|) % WRAP))
  {
    hide MaskBit, LinkEntry, ChunkEntry, Replay, At16, Holds;
    LinkFields(f, c.links, c.chunks, t);
  }

  /** A cursor kept modulo 2^32 still points at what it should in a small enough file. */
  lemma HoldsWrapped(f: seq<byte>, at: nat, e: seq<byte>)
    requires Holds(f, at, e) && |f| <= WRAP
    ensures Holds(f, at % WRAP, e)
  {
  }

  lemma NextCursor(ts: seq<Token>, masks: seq<byte>, out: seq<byte>, k: nat)
    requires ValidTokens(ts) && k < |ts| && Size(ts[..k]) <= |out| && Size(ts[..k + 1]) <= |out|
    ensures var c := CursorAt(ts, masks, out, k);
      CursorAt(ts, masks, out, k + 1)
      == Cursor(out[..Size(ts[..k + 1])], k + 1, (c.links + |LinkEntry(ts[k])|) % WRAP,
          (c.chunks + |ChunkEntry(ts[k])|) % WRAP)
  {
    hide Links, Chunks, Size, LinkEntry, ChunkEntry;
    StreamNext(ts, k);
  }

  lemma RoundToken(ts: seq<Token>, masks: seq<byte>, out: seq<byte>, k: nat)
    requires ValidTokens(ts) && MasksOf(ts, masks) && Expands(ts, out) && k < |ts|
    requires |File(ts, masks, |out|)| <= WRAP
    ensures Size(ts[..k]) < Size(ts[..k + 1]) <= |out|
    ensures Round(File(ts, masks, |out|), CursorAt(ts, masks, out, k)) == Some(CursorAt(ts, masks, out, k + 1))
  {
    hide File, MaskBit, Expands, Size, Holds, MasksOf, Round, Links, Chunks, Replay;
    NextOutput(ts, out, k);
    NextInput(ts, masks, |out|, k);
    var t, f, c := ts[k], File(ts, masks, |out|), CursorAt(ts, masks, out, k);
    HoldsWrapped(f, 16 + |masks| + |Links(ts[..k])|, LinkEntry(t));
    HoldsWrapped(f, 16 + |masks| + |Links(ts)| + |Chunks(ts[..k])|, ChunkEntry(t));
    NextCursor(ts, masks, out, k);
    hide CursorAt;
    if t.Literal? {
      RoundLiteral(f, c, t);
    } else {
      RoundLink(f, c, t);
    }
  }

  lemma {:induction false} DecodeRest(ts: seq<Token>, masks: seq<byte>, out: seq<byte>, k: nat)
    requires ValidTokens(ts) && MasksOf(ts, masks) && Expands(ts, out) && k <= |ts|
    requires |File(ts, masks, |out|)| <= WRAP
    ensures Size(ts[..k]) <= |out|
    ensures DecodeFrom(File(ts, masks, |out|), |out|, CursorAt(ts, masks, out, k)) == Ok(out)
    decreases |ts| - k
  {
    ExpandsPrefix(ts, out, k);
    hide File, Round, Links, Chunks, MasksOf, Size, Expands;
    if k == |ts| {
      assert ts[..k] == ts;
      ExpandsPrefix(ts, out, 0);
      assert out[..|out|] == out;
    } else {
      RoundToken(ts, masks, out, k);
      DecodeRest(ts, masks, out, k + 1);
    }
  }

  lemma At32Be32(f: seq<byte>, at: nat, v: nat)
    requires Holds(f, at, Be32(v))
    ensures at + 4 <= |f| && At32(f, at) == v % WRAP
  {
    var e := Be32(v);
    assert f[at + 0] == e[0] && f[at + 1] == e[1] && f[at + 2] == e[2] && f[at + 3] == e[3];
  }

  /** Decoding a stored file gives back what its tokens expand to, if no 32-bit offset
      or length wraps around. */
  lemma DecodeFile(ts: seq<Token>, masks: seq<byte>, out: seq<byte>)
    requires ValidTokens(ts) && MasksOf(ts, masks) && Expands(ts, out)
    requires |out| < WRAP && |File(ts, masks, |out|)| <= WRAP
    ensures Decode(File(ts, masks, |out|)) == Ok(out)
  {
    hide File, Links, Chunks, Be32, Holds, Size, DecodeFrom, Expands, MasksOf, At32, CursorAt, Decode, ValidTokens;
    var f, l := File(ts, masks, |out|), 16 + |masks|;
    FileHeader(ts, masks, |out|);
    assert ts[..0] == [];
    FirstCursor(ts, masks, out);
    DecodeRest(ts, masks, out, 0);
  }

  /** Decoding starts with the three fields of the header, kept modulo 2^32. */
  lemma FileHeader(ts: seq<Token>, masks: seq<byte>, size: nat)
    requires ValidTokens(ts)
    ensures var l := 16 + |masks|;
      Decode(File(ts, masks, size))
      == DecodeFrom(File(ts, masks, size), size % WRAP, Cursor([], 0, l % WRAP, (l + |Links(ts)|) % WRAP))
  {
    hide File, Links, Chunks, Be32, Holds, DecodeFrom, At32, Decode;
    var f, l := File(ts, masks, size), 16 + |masks|;
    FileParts(ts, masks, size);
    At32Be32(f, 4, size);
    At32Be32(f, 8, l);
    At32Be32(f, 12, l + |Links(ts)|);
    Header(f);
  }

  lemma FirstCursor(ts: seq<Token>, masks: seq<byte>, out: seq<byte>)
    requires ValidTokens(ts) && ts[..0] == []
    ensures CursorAt(ts, masks, out, 0) == Cursor([], 0, (16 + |masks|) % WRAP, (16 + |masks| + |Links(ts)|) % WRAP)
  {
  }

  lemma Header(f: seq<byte>)
    requires |f| >= 16 && f[..4] == MAGIC
    ensures Decode(f) == DecodeFrom(f, At32(f, 4), Cursor([], 0, At32(f, 8), At32(f, 12)))
  {
    hide DecodeFrom, At32;
  }

  // ---- limits of the format

  lemma {:induction false} DecodeLength(input: seq<byte>, size: nat, c: Cursor)
    requires |c.out| <= size + 272
    ensures DecodeFrom(input, size, c).Ok? ==> size <= |DecodeFrom(input, size, c).out| <= size + 272
    decreases if |c.out| < size then size - |c.out| else 0
  {
    if |c.out| < size && Round(input, c).Some? {
      DecodeLength(input, size, Round(input, c).value);
    }
  }

  /** The length field has 32 bits: nothing longer than 4 GiB - 1 can come back. */
  lemma TooLong(ts: seq<Token>, masks: seq<byte>, out: seq<byte>)
    requires ValidTokens(ts) && |out| >= WRAP
    ensures Decode(File(ts, masks, |out|)) != Ok(out)
  {
    hide File, DecodeFrom, Decode, Links;
    FileHeader(ts, masks, |out|);
    var l := 16 + |masks|;
    DecodeLength(File(ts, masks, |out|), |out| % WRAP, Cursor([], 0, l % WRAP, (l + |Links(ts)|) % WRAP));
  }

  /** A file never needs more than 16 bytes and nine bits for each byte of content. */
  lemma {:induction false} StreamSizes(ts: seq<Token>)
    requires ValidTokens(ts)
    ensures |ts| <= Size(ts) && |Links(ts)| + |Chunks(ts)| <= Size(ts)
  {
    if ts != [] {
      StreamSizes(ts[..|ts| - 1]);
    }
  }

  lemma FileSize(ts: seq<Token>, masks: seq<byte>, out: seq<byte>)
    requires ValidTokens(ts) && MasksOf(ts, masks) && Expands(ts, out)
    ensures |File(ts, masks, |out|)| <= 16 + |out| + (|out| + 7) / 8
  {
    FileParts(ts, masks, |out|);
    ExpandsPrefix(ts, out, |ts|);
    StreamSizes(ts);
  }
}

/** yay0_compress and yay0_decompress of docs/gc-font-tool.cpp. */
module Yay0 {
  import opened Arith
  import opened Bits
  import opened Bytes
  import opened Yay0Format

  // ---- the mask streams

  /** The low k bits are clear. */
  predicate ClearBelow(x: byte, k: nat) {
    x as int == (x as int / Pow2(k)) * Pow2(k)
  }

  /** The bits a writer has accepted, stored most significant first and padded with zeros. */
  ghost predicate Stored(bits: seq<bool>, data: seq<byte>) {
    && |data| == (|bits| + 7) / 8
    && (forall i :: 0 <= i < |bits| ==> MaskBit(data, i) == bits[i])
    && (|bits| % 8 != 0 ==> ClearBelow(data[|data| - 1], 8 - |bits| % 8))
  }

  class MaskVectorWriter {
    var data: seq<byte>
    var nextOffset: int
    ghost var bits: seq<bool>

    ghost predicate Valid() reads this {
      Stored(bits, data) && nextOffset == (7 - |bits| % 8) - (if |bits| % 8 == 0 then 8 else 0)
    }

    constructor ()
      ensures Valid() && bits == []
    {
      data, nextOffset, bits := [], -1, [];
    }

    method PushBack(bit: bool)
      requires Valid()
      modifies this
      ensures Valid() && bits == old(bits) + [bit]
    {
      hide MaskBit, Digit, ClearBelow, WithBit;
      if nextOffset < 0 {
        ZeroByte();
        ByteAdded(bits, data);
        data := data + [0];
        nextOffset := 7;
      }
      ghost var before := data;
      var last := |data| - 1;
      data := data[last := WithBit(data[last], nextOffset, bit)];
      PushStored(bits, bit, nextOffset, before, data);
      nextOffset := nextOffset - 1;
      bits := bits + [bit];
    }
  }

  /** x | (bit << k), when the low k + 1 bits of x are clear. */
  function WithBit(x: byte, k: nat, bit: bool): (y: byte)
    requires k < 8 && ClearBelow(x, k + 1)
    ensures ClearBelow(y, k) && Digit(y, k) == bit
    ensures forall j :: k < j < 8 ==> Digit(y, j) == Digit(x, j)
  {
    var b, q := if bit then 1 else 0, x as int / Pow2(k + 1);
    SetBitFits(x as int, k, b, q);
    var y := Or(x as int, b * Pow2(k)) as byte;
    SetBit(x, y, k, b, q);
    y
  }

  lemma ZeroByte()
    ensures ClearBelow(0, 8)
  {
  }

  /** A further byte does not change the bits before it. */
  lemma ByteAdded(bits: seq<bool>, data: seq<byte>)
    requires |bits| <= 8 * |data| && (forall i :: 0 <= i < |bits| ==> MaskBit(data, i) == bits[i])
    ensures forall i :: 0 <= i < |bits| ==> MaskBit(data + [0], i) == bits[i]
  {
    hide Digit;
    forall i | 0 <= i < |bits| ensures MaskBit(data + [0], i) == bits[i] {
      assert MaskBit(data, i) == bits[i];
    }
  }

  /** Setting bit k of a byte whose low k + 1 bits are clear. */
  lemma SetBitFits(x: int, k: int, b: int, q: int)
    requires 0 <= k < 8 && 0 <= b <= 1 && 0 <= x < 256 && x == q * Pow2(k + 1)
    ensures Or(x, b * Pow2(k)) == x + b * Pow2(k) < 256 && x + b * Pow2(k) == (2 * q + b) * Pow2(k)
  {
    var p, a := Pow2(k), Pow2(k + 1);
    assert a == 2 * p;
    Pow2Add(k + 1, 7 - k);
    assert Pow2(8) == 256;
    hide Or, Pow2;
    SignOf(q, a, x);
    SetBitValue(q, p, a, b, Pow2(7 - k));
    OrDisjoint(b * p, q, k + 1);
  }

  lemma SetBitValue(q: int, p: int, a: int, b: int, m: int)
    requires p > 0 && a == 2 * p && 0 <= b <= 1 && m > 0 && a * m == 256 && q >= 0 && q * a < 256
    ensures 0 <= q * a + b * p < 256 && q * a + b * p == (2 * q + b) * p
  {
    assert q * a == (2 * q) * p;
    assert q >= m ==> q * a >= m * a;
    assert q * a <= (m - 1) * a;
    assert (m - 1) * a == 256 - a;
  }

  lemma SignOf(q: int, a: int, x: int)
    requires a > 0 && x == q * a && x >= 0
    ensures q >= 0
  {
    assert q < 0 ==> q * a < 0;
  }

  lemma SetBit(x: byte, y: byte, k: int, b: int, q: int)
    requires 0 <= k < 8 && 0 <= b <= 1 && x as int == q * Pow2(k + 1)
    requires y as int == x as int + b * Pow2(k) && y as int == (2 * q + b) * Pow2(k)
    ensures ClearBelow(y, k) && Digit(y, k) == (b == 1)
    ensures forall j :: k < j < 8 ==> Digit(y, j) == Digit(x, j)
  {
    var p, a := Pow2(k), Pow2(k + 1);
    assert a == 2 * p;
    hide Pow2, Digit;
    LowestDigit(y, k, b, q);
    SignOf(q, a, x as int);
    forall j | k < j < 8 ensures Digit(y, j) == Digit(x, j) {
      Pow2Add(k + 1, j - (k + 1));
      HigherDigit(x, y, q, a, b * p, Pow2(j - (k + 1)), j);
    }
  }

  lemma LowestDigit(y: byte, k: nat, b: int, q: int)
    requires y as int == (2 * q + b) * Pow2(k) && 0 <= b <= 1
    ensures ClearBelow(y, k) && Digit(y, k) == (b == 1)
  {
    var p := Pow2(k);
    hide Pow2;
    ModUnique(y as int, p, 2 * q + b, 0);
  }

  lemma HigherDigit(x: byte, y: byte, q: int, a: int, s: int, n: int, j: nat)
    requires a > 0 && n > 0 && x as int == q * a && y as int == q * a + s && 0 <= s < a && q >= 0 && Pow2(j) == a * n
    ensures Digit(y, j) == Digit(x, j)
  {
    hide Pow2;
    ModUnique(y as int, a, q, s);
    ModUnique(x as int, a, q, 0);
    DivTwice(y as int, a, n);
    DivTwice(x as int, a, n);
    assert n * a == Pow2(j);
  }

  lemma PushStored(bits: seq<bool>, bit: bool, k: int, before: seq<byte>, after: seq<byte>)
    requires 0 <= k < 8 && (|bits| + k) % 8 == 7
    requires |before| == |after| == (|bits| + 8) / 8
    requires forall i :: 0 <= i < |bits| ==> MaskBit(before, i) == bits[i]
    requires forall i :: 0 <= i < |before| - 1 ==> after[i] == before[i]
    requires var x, y := before[|before| - 1], after[|before| - 1];
      ClearBelow(y, k) && Digit(y, k) == bit && forall j :: k < j < 8 ==> Digit(y, j) == Digit(x, j)
    ensures Stored(bits + [bit], after)
  {
    hide Digit, Pow2, ClearBelow;
    var bits' := bits + [bit];
    forall i | 0 <= i < |bits'| ensures MaskBit(after, i) == bits'[i] {
      if i < |bits| {
        assert MaskBit(before, i) == bits[i];
      }
    }
  }

  class MaskVectorReader {
    const input: seq<byte>
    var offset: nat
    var nextBit: nat

    predicate Valid() reads this { nextBit <= 8 }

    /** The number of bits of the input passed so far. */
    function Position(): nat reads this { 8 * offset + nextBit }

    constructor (input: seq<byte>, offset: nat)
      ensures this.input == input && Valid() && Position() == 8 * offset
    {
      this.input, this.offset, nextBit := input, offset, 0;
    }

    /** The next bit, or nothing where the original throws. */
    method PopFront() returns (value: Option<bool>)
      requires Valid()
      modifies this
      ensures Valid() && Position() == old(Position()) + 1
      ensures value == if old(Position()) / 8 >= |input| then None else Some(MaskBit(input, old(Position())))
    {
      if nextBit == 8 {
        nextBit := 0;
        offset := offset + 1;
      }
      value := None;
      if offset < |input| {
        TopBit(input[offset], nextBit);
        value := Some(And(input[offset] as int * Pow2(nextBit), 0x80) != 0);
      }
      nextBit := nextBit + 1;
    }
  }

  lemma TopBit(x: byte, j: nat)
    requires j < 8
    ensures And(x as int * Pow2(j), 0x80) != 0 <==> Digit(x, 7 - j)
  {
    var p, m := Pow2(j), Pow2(7 - j);
    Pow2Add(j, 7 - j);
    assert Pow2(7) == 128;
    AndTop(x as int * p);
    hide Pow2, And;
    ShiftedByte(x as int, p, m);
  }

  lemma ShiftedByte(x: int, p: int, m: int)
    requires x >= 0 && p > 0 && m > 0 && p * m == 128
    ensures (x * p) / 128 == x / m
  {
    ModUnique(x * p, p, x, 0);
    DivTwice(x * p, p, m);
    assert m * p == 128;
  }

  lemma AndTop(z: int)
    ensures And(z, 0x80) == 128 * ((z / 128) % 2)
  {
    hide And;
    AndStep(z, 128); AndStep(z / 2, 64); AndStep(z / 2 / 2, 32); AndStep(z / 2 / 2 / 2, 16);
    AndStep(z / 2 / 2 / 2 / 2, 8); AndStep(z / 2 / 2 / 2 / 2 / 2, 4); AndStep(z / 2 / 2 / 2 / 2 / 2 / 2, 2);
    var y := z / 2 / 2 / 2 / 2 / 2 / 2 / 2;
    assert y == z / 128;
    AndLow(y, 1);
    assert Pow2(1) == 2;
  }

  // ---- the search for a link

  predicate Agrees(input: seq<byte>, pos: nat, o: nat, i: nat) {
    o <= pos && pos + i < |input| && input[pos - o + i] == input[pos + i]
  }

  /** How far the input at pos agrees with the input offset o back, from k on, up to 274
      bytes or the end of the input. */
  function MatchFrom(input: seq<byte>, pos: nat, o: nat, k: nat): (m: nat)
    requires o <= pos && pos + k <= |input| && k <= 274
    ensures k <= m <= 274 && pos + m <= |input|
    ensures forall i :: k <= i < m ==> Agrees(input, pos, o, i)
    ensures m < 274 && pos + m < |input| ==> !Agrees(input, pos, o, m)
    decreases 274 - k
  {
    if k > 273 || pos + k >= |input| || !Agrees(input, pos, o, k) then k
    else MatchFrom(input, pos, o, k + 1)
  }

  function Match(input: seq<byte>, pos: nat, o: nat): (m: nat)
    requires o <= pos < |input|
    ensures m <= 274 && pos + m <= |input|
    ensures forall i :: 0 <= i < m ==> Agrees(input, pos, o, i)
    ensures m < 274 && pos + m < |input| ==> !Agrees(input, pos, o, m)
  {
    MatchFrom(input, pos, o, 0)
  }

  predicate Capped(input: seq<byte>, pos: nat, o: nat)
    requires o <= pos < |input|
  {
    Match(input, pos, o) == 274 || pos + Match(input, pos, o) == |input|
  }

  function Window(pos: nat): nat {
    if pos < 0x1000 then pos else 0x1000
  }

  /** What the search settles for: the nearest of the longest matches, except that the
      first match to reach the limit or the end of the input wins, less its last byte. */
  ghost predicate Chosen(input: seq<byte>, pos: nat, count: nat, offset: nat)
    requires pos < |input|
  {
    if exists o :: 1 <= o <= Window(pos) && Capped(input, pos, o) then
      && 1 <= offset <= Window(pos) && Capped(input, pos, offset) && count == Match(input, pos, offset) - 1
      && forall o :: 1 <= o < offset ==> !Capped(input, pos, o)
    else
      && (forall o :: 1 <= o <= Window(pos) ==> Match(input, pos, o) <= count)
      && (count > 0 ==> 1 <= offset <= Window(pos) && Match(input, pos, offset) == count
                        && forall o :: 1 <= o < offset ==> Match(input, pos, o) < count)
  }

  /** The inner loop: count the bytes that agree, up to the limit or the end of the input. */
  method CountMatch(input: seq<byte>, pos: nat, offset: nat) returns (count: nat, maxCountReached: bool)
    requires 1 <= offset <= pos < |input|
    ensures count == Match(input, pos, offset) && maxCountReached == Capped(input, pos, offset)
  {
    count, maxCountReached := 0, false;
    while input[pos - offset + count] == input[pos + count]
      invariant 0 <= count < 274 && pos + count < |input|
      invariant MatchFrom(input, pos, offset, count) == Match(input, pos, offset)
      decreases 274 - count
    {
      count := count + 1;
      if count > 273 || pos + count >= |input| {
        maxCountReached := true;
        break;
      }
    }
  }

  method FindLink(input: seq<byte>, pos: nat) returns (linkCount: nat, linkOffset: nat)
    requires pos < |input|
    ensures Chosen(input, pos, linkCount, linkOffset)
  {
    hide Match;
    linkCount, linkOffset := 0, 0;
    var offset := 1;
    while offset <= 0x1000 && offset <= pos
      invariant 1 <= offset <= Window(pos) + 1
      invariant forall o :: 1 <= o < offset ==> !Capped(input, pos, o) && Match(input, pos, o) <= linkCount
      invariant linkCount > 0 ==> 1 <= linkOffset < offset && Match(input, pos, linkOffset) == linkCount
      invariant linkCount > 0 ==> forall o :: 1 <= o < linkOffset ==> Match(input, pos, o) < linkCount
    {
      var count, maxCountReached := CountMatch(input, pos, offset);
      if maxCountReached {
        return count - 1, offset;
      }
      if count > linkCount {
        linkCount, linkOffset := count, offset;
      }
      offset := offset + 1;
    }
  }

  lemma ChosenMatches(input: seq<byte>, pos: nat, count: nat, offset: nat)
    requires pos < |input| && Chosen(input, pos, count, offset) && count > 0
    ensures 1 <= offset <= pos && offset <= 0x1000 && count <= 273 && pos + count <= |input|
    ensures forall i :: 0 <= i < count ==> Agrees(input, pos, offset, i)
  {
    if !Capped(input, pos, offset) {
      assert Match(input, pos, offset) <= 273;
    }
  }

  /** The search has one outcome; an empty match may name any offset. */
  lemma ChosenUnique(input: seq<byte>, pos: nat, count: nat, offset: nat, count': nat, offset': nat)
    requires pos < |input| && Chosen(input, pos, count, offset) && Chosen(input, pos, count', offset')
    ensures count == count' && (count > 0 ==> offset == offset')
  {
    if exists o :: 1 <= o <= Window(pos) && Capped(input, pos, o) {
      assert offset == offset';
    } else if count > 0 && count' > 0 {
      assert Match(input, pos, offset) == count && Match(input, pos, offset') == count';
    }
  }

  // ---- which tokens a file holds

  /** A link where the search has found at least three bytes, else the byte itself. */
  function TokenFor(input: seq<byte>, pos: nat, count: nat, offset: nat): Token
    requires pos < |input|
  {
    if count >= 3 then Link(offset, count) else Literal(input[pos])
  }

  ghost predicate Settles(input: seq<byte>, pos: nat, t: Token) {
    pos < |input|
    && exists count: nat, offset: nat ::
         Chosen(input, pos, count, offset) && t == TokenFor(input, pos, count, offset)
  }

  /** Every token is what the search yields at the place it stands for. */
  ghost predicate Greedy(input: seq<byte>, ts: seq<Token>) {
    forall i :: 0 <= i < |ts| ==> Settles(input, Size(ts[..i]), ts[i])
  }

  lemma GreedyMore(input: seq<byte>, ts: seq<Token>, pos: nat, count: nat, offset: nat)
    requires Greedy(input, ts) && Size(ts) == pos < |input| && Chosen(input, pos, count, offset)
    ensures var t := TokenFor(input, pos, count, offset); Greedy(input, ts + [t]) && Size(ts + [t]) == pos + Width(t)
  {
    hide Chosen;
    var t := TokenFor(input, pos, count, offset);
    var us := ts + [t];
    assert us[..|ts|] == ts;
    forall i | 0 <= i < |us| ensures Settles(input, Size(us[..i]), us[i]) {
      if i < |ts| {
        assert us[..i] == ts[..i];
      }
    }
  }

  lemma SettlesOnce(input: seq<byte>, pos: nat, t: Token, u: Token)
    requires Settles(input, pos, t) && Settles(input, pos, u)
    ensures t == u
  {
    var c: nat, o: nat :| Chosen(input, pos, c, o) && t == TokenFor(input, pos, c, o);
    var c': nat, o': nat :| Chosen(input, pos, c', o') && u == TokenFor(input, pos, c', o');
    ChosenUnique(input, pos, c, o, c', o');
  }

  lemma {:induction false} SamePrefix(input: seq<byte>, ts: seq<Token>, us: seq<Token>, k: nat)
    requires Greedy(input, ts) && Greedy(input, us) && k <= |ts| && k <= |us|
    ensures ts[..k] == us[..k]
  {
    hide Settles, Size;
    if k > 0 {
      SamePrefix(input, ts, us, k - 1);
      SettlesOnce(input, Size(ts[..k - 1]), ts[k - 1], us[k - 1]);
      assert ts[..k] == ts[..k - 1] + [ts[k - 1]] && us[..k] == us[..k - 1] + [us[k - 1]];
    }
  }

  lemma Before(input: seq<byte>, ts: seq<Token>, k: nat)
    requires Greedy(input, ts) && k < |ts|
    ensures Size(ts[..k]) < |input|
  {
    hide Chosen;
    assert Settles(input, Size(ts[..k]), ts[k]);
  }

  /** A list that covers the input has nothing behind it. */
  lemma NoLonger(input: seq<byte>, ts: seq<Token>, us: seq<Token>)
    requires Greedy(input, ts) && Greedy(input, us) && Size(ts) == |input|
    ensures |us| <= |ts|
  {
    hide Greedy;
    assert ts[..|ts|] == ts;
    if |us| > |ts| {
      SamePrefix(input, ts, us, |ts|);
      Before(input, us, |ts|);
    }
  }

  lemma TokensUnique(input: seq<byte>, ts: seq<Token>, us: seq<Token>)
    requires Greedy(input, ts) && Greedy(input, us) && Size(ts) == Size(us) == |input|
    ensures ts == us
  {
    NoLonger(input, ts, us);
    NoLonger(input, us, ts);
    SamePrefix(input, ts, us, |ts|);
    assert ts[..|ts|] == ts && us[..|us|] == us;
  }

  /** The mask bits of the tokens. */
  function Marks(ts: seq<Token>): (bits: seq<bool>)
    ensures |bits| == |ts|
  {
    seq(|ts|, i requires 0 <= i < |ts| => ts[i].Literal?)
  }

  lemma {:induction false} SameDigits(x: byte, y: byte, k: nat)
    requires k <= 8 && forall j :: k <= j < 8 ==> Digit(x, j) == Digit(y, j)
    ensures x as nat / Pow2(k) == y as nat / Pow2(k)
    decreases 8 - k
  {
    if k < 8 {
      SameDigits(x, y, k + 1);
      assert Digit(x, k) == Digit(y, k);
      assert Pow2(k + 1) == 2 * Pow2(k);
      hide Pow2;
      DivTwice(x as nat, Pow2(k), 2);
      DivTwice(y as nat, Pow2(k), 2);
    } else {
      assert Pow2(3) == 8;
      Pow2Add(3, 3);
      Pow2Add(6, 2);
    }
  }

  lemma ClearDigit(x: byte, k: nat, j: nat)
    requires ClearBelow(x, k) && j < k <= 8
    ensures !Digit(x, j)
  {
    Pow2Add(j, k - j);
    assert Pow2(k - j) == 2 * Pow2(k - j - 1);
    hide Pow2;
    ClearAlgebra(x as nat, x as nat / Pow2(k), Pow2(j), Pow2(k - j - 1));
  }

  lemma ClearAlgebra(x: nat, q: nat, p: nat, m: nat)
    requires p > 0 && x == q * (p * (2 * m))
    ensures (x / p) % 2 == 0
  {
    var h := q * m;
    assert x == (2 * h) * p by {
      assert q * (p * (2 * m)) == (q * m) * (2 * p);
    }
    ModUnique(x, p, 2 * h, 0);
  }

  /** Bits, most significant first and padded with zeros, are stored in one way only. */
  lemma StoredOnce(bits: seq<bool>, a: seq<byte>, b: seq<byte>)
    requires Stored(bits, a) && Stored(bits, b)
    ensures a == b
  {
    hide ClearBelow, Digit;
    forall i | 0 <= i < |a| ensures a[i] == b[i] {
      forall j | 0 <= j < 8 ensures Digit(a[i], j) == Digit(b[i], j) {
        var n := 8 * i + (7 - j);
        if n < |bits| {
          assert n / 8 == i && n % 8 == 7 - j;
          assert MaskBit(a, n) == bits[n] && MaskBit(b, n) == bits[n];
        } else {
          ClearDigit(a[i], 8 - |bits| % 8, j);
          ClearDigit(b[i], 8 - |bits| % 8, j);
        }
      }
      SameDigits(a[i], b[i], 0);
      assert Pow2(0) == 1;
    }
  }

  /** The file the compressor makes is determined by its input. */
  ghost predicate Compressed(input: seq<byte>, ts: seq<Token>, masks: seq<byte>) {
    ValidTokens(ts) && Greedy(input, ts) && Size(ts) == |input| && Stored(Marks(ts), masks)
  }

  /** Token i of a compressed file is the link found at its place if that has three bytes. */
  lemma TokenMeaning(input: seq<byte>, ts: seq<Token>, masks: seq<byte>, i: nat) returns (count: nat, offset: nat)
    requires Compressed(input, ts, masks) && i < |ts|
    ensures Size(ts[..i]) < |input| && Chosen(input, Size(ts[..i]), count, offset)
    ensures ts[i] == if count >= 3 then Link(offset, count) else Literal(input[Size(ts[..i])])
  {
    hide Chosen, Size;
    var pos := Size(ts[..i]);
    assert Settles(input, pos, ts[i]);
    var c: nat, o: nat :| Chosen(input, pos, c, o) && ts[i] == TokenFor(input, pos, c, o);
    count, offset := c, o;
  }

  /** Two runs cannot make different files of the same input. */
  lemma CompressedOnce(input: seq<byte>, ts: seq<Token>, masks: seq<byte>, us: seq<Token>, masks': seq<byte>)
    requires Compressed(input, ts, masks) && Compressed(input, us, masks')
    ensures File(ts, masks, |input|) == File(us, masks', |input|)
  {
    hide Greedy, Stored, File;
    TokensUnique(input, ts, us);
    StoredOnce(Marks(ts), masks, masks');
  }

  // ---- compression

  /** Copying a link found by the search reproduces the input. */
  lemma {:induction false} ReplayInput(input: seq<byte>, pos: nat, offset: nat, k: nat, count: nat)
    requires 1 <= offset <= pos && k <= count && pos + count <= |input|
    requires forall i :: 0 <= i < count ==> Agrees(input, pos, offset, i)
    ensures Replay(input[..pos + k], offset, count - k) == input[..pos + count]
    decreases count - k
  {
    if k < count {
      assert Agrees(input, pos, offset, k);
      assert input[..pos + k] + [input[pos + k]] == input[..pos + k + 1];
      ReplayInput(input, pos, offset, k + 1, count);
    }
  }

  lemma ExpandsMore(ts: seq<Token>, t: Token, input: seq<byte>, pos: nat, next: nat)
    requires pos + Width(t) == next <= |input| && Expands(ts, input[..pos]) && Extended(input[..pos], t, input[..next])
    ensures Expands(ts + [t], input[..next])
  {
    var us, out := ts + [t], input[..next];
    assert us[..|us| - 1] == ts && us[|us| - 1] == t;
    assert out[..|out| - Width(t)] == input[..pos];
  }

  lemma StreamsMore(ts: seq<Token>, t: Token)
    requires ValidTokens(ts) && ValidToken(t)
    ensures ValidTokens(ts + [t]) && Links(ts + [t]) == Links(ts) + LinkEntry(t)
        && Chunks(ts + [t]) == Chunks(ts) + ChunkEntry(t)
  {
    assert (ts + [t])[..|ts + [t]| - 1] == ts;
  }

  /** The mask bit of each token. */
  ghost predicate BitsOf(ts: seq<Token>, bits: seq<bool>) {
    |bits| == |ts| && forall i :: 0 <= i < |ts| ==> bits[i] == ts[i].Literal?
  }

  method Assemble(size: nat, masks: seq<byte>, links: seq<byte>, chunks: seq<byte>) returns (result: seq<byte>)
    ensures result == MAGIC + Be32(size) + Be32(16 + |masks|) + Be32(16 + |masks| + |links|) + masks + links + chunks
  {
    result := MAGIC;
    result := result + Be32(size);
    result := result + Be32(16 + |masks|);
    result := result + Be32(16 + |masks| + |links|);
    result := result + masks;
    result := result + links;
    result := result + chunks;
  }

  /** The bytes a link adds to the link and chunk streams. */
  method EncodeLink(linkCount: nat, linkOffset: nat) returns (link: seq<byte>, chunk: seq<byte>)
    requires ValidToken(Link(linkOffset, linkCount))
    ensures link == LinkEntry(Link(linkOffset, linkCount)) && chunk == ChunkEntry(Link(linkOffset, linkCount))
  {
    var linkCountHeader := 0;
    chunk := [];
    if linkCount >= 18 {
      chunk := [(linkCount - 18) as byte];
    } else {
      linkCountHeader := linkCount - 2;
    }
    link := Be16(linkCountHeader * 0x1000 + (linkOffset - 1));
  }

  /** The streams hold ts, which expands to the first pos bytes of the input. */
  ghost predicate Progress(input: seq<byte>, pos: nat, ts: seq<Token>, bits: seq<bool>, links: seq<byte>,
      chunks: seq<byte>) {
    && pos <= |input| && ValidTokens(ts) && Expands(ts, input[..pos]) && BitsOf(ts, bits)
    && links == Links(ts) && chunks == Chunks(ts)
  }

  lemma ProgressMore(input: seq<byte>, pos: nat, ts: seq<Token>, bits: seq<bool>, links: seq<byte>, chunks: seq<byte>,
      t: Token, next: nat)
    requires Progress(input, pos, ts, bits, links, chunks) && ValidToken(t)
    requires pos + Width(t) == next <= |input| && Extended(input[..pos], t, input[..next])
    ensures Progress(input, next, ts + [t], bits + [t.Literal?], links + LinkEntry(t), chunks + ChunkEntry(t))
  {
    hide Expands, Links, Chunks, LinkEntry, ChunkEntry, Extended;
    ExpandsMore(ts, t, input, pos, next);
    StreamsMore(ts, t);
  }

  method Compress(input: seq<byte>) returns (result: seq<byte>, ghost ts: seq<Token>, ghost masks: seq<byte>)
    ensures Compressed(input, ts, masks) && Expands(ts, input) && result == File(ts, masks, |input|)
    ensures |input| < WRAP && |result| <= WRAP ==> Decode(result) == Ok(input)
    ensures |input| >= WRAP ==> Decode(result) != Ok(input)
    ensures |result| <= 16 + |input| + (|input| + 7) / 8
  {
    hide Progress, Stored, Expands, Chosen, LinkEntry, ChunkEntry, Be32, Decode, Extended, Links, Chunks, Greedy, Size,
      Compressed;
    var inputPos := 0;
    var writer := new MaskVectorWriter();
    var links, chunks: seq<byte> := [], [];
    ts := [];
    StartStreams(input);
    while inputPos < |input|
      invariant inputPos <= |input| && writer.Valid() && fresh(writer)
      invariant Progress(input, inputPos, ts, writer.bits, links, chunks)
      invariant Greedy(input, ts) && Size(ts) == inputPos
    {
      var linkCount, linkOffset := FindLink(input, inputPos);
      GreedyMore(input, ts, inputPos, linkCount, linkOffset);
      if linkCount >= 3 {
        LinkToken(input, inputPos, linkCount, linkOffset);
        ghost var t := Link(linkOffset, linkCount);
        ProgressMore(input, inputPos, ts, writer.bits, links, chunks, t, inputPos + linkCount);
        var link, chunk := EncodeLink(linkCount, linkOffset);
        chunks := chunks + chunk;
        links := links + link;
        writer.PushBack(false);
        inputPos := inputPos + linkCount;
        ts := ts + [t];
      } else {
        LiteralToken(input, inputPos);
        ghost var t := Literal(input[inputPos]);
        ProgressMore(input, inputPos, ts, writer.bits, links, chunks, t, inputPos + 1);
        assert links + LinkEntry(t) == links;
        chunks := chunks + [input[inputPos]];
        writer.PushBack(true);
        inputPos := inputPos + 1;
        ts := ts + [t];
      }
    }
    masks := writer.data;
    ProgressDone(input, ts, writer.bits, masks, links, chunks);
    result := Assemble(|input|, writer.data, links, chunks);
    CompressedFile(ts, masks, input);
    CompressedTokens(input, ts, writer.bits, links, chunks, masks);
  }

  lemma CompressedTokens(input: seq<byte>, ts: seq<Token>, bits: seq<bool>, links: seq<byte>, chunks: seq<byte>,
      masks: seq<byte>)
    requires Progress(input, |input|, ts, bits, links, chunks) && Stored(bits, masks) && Greedy(input, ts)
    requires Size(ts) == |input|
    ensures Compressed(input, ts, masks)
  {
    hide Stored, Expands, Greedy;
    assert bits == Marks(ts);
  }

  lemma ProgressDone(input: seq<byte>, ts: seq<Token>, bits: seq<bool>, masks: seq<byte>, links: seq<byte>,
      chunks: seq<byte>)
    requires Progress(input, |input|, ts, bits, links, chunks) && Stored(bits, masks)
    ensures ValidTokens(ts) && MasksOf(ts, masks) && Expands(ts, input) && links == Links(ts) && chunks == Chunks(ts)
  {
    hide Stored;
    assert input[..|input|] == input;
    StoredMasks(ts, bits, masks);
  }

  lemma StartStreams(input: seq<byte>)
    ensures Progress(input, 0, [], [], [], []) && Greedy(input, []) && Size([]) == 0
  {
  }

  /** The link entries the compressor writes are those of the token. */
  lemma LinkToken(input: seq<byte>, pos: nat, count: nat, offset: nat)
    requires pos < |input| && Chosen(input, pos, count, offset) && count >= 3
    ensures pos + count <= |input| && 3 <= count <= 273 && 1 <= offset <= 0x1000 && ValidToken(Link(offset, count))
    ensures Extended(input[..pos], Link(offset, count), input[..pos + count])
  {
    hide Replay, Chosen;
    ChosenMatches(input, pos, count, offset);
    hide Agrees;
    ReplayInput(input, pos, offset, 0, count);
    assert input[..pos + 0] == input[..pos];
  }

  lemma LiteralToken(input: seq<byte>, pos: nat)
    requires pos < |input|
    ensures Extended(input[..pos], Literal(input[pos]), input[..pos + 1])
    ensures LinkEntry(Literal(input[pos])) == [] && ChunkEntry(Literal(input[pos])) == [input[pos]]
  {
  }

  lemma StoredMasks(ts: seq<Token>, bits: seq<bool>, data: seq<byte>)
    requires Stored(bits, data) && BitsOf(ts, bits)
    ensures MasksOf(ts, data)
  {
    hide MaskBit;
  }

  lemma CompressedFile(ts: seq<Token>, masks: seq<byte>, input: seq<byte>)
    requires ValidTokens(ts) && MasksOf(ts, masks) && Expands(ts, input)
    ensures |input| < WRAP && |File(ts, masks, |input|)| <= WRAP ==> Decode(File(ts, masks, |input|)) == Ok(input)
    ensures |input| >= WRAP ==> Decode(File(ts, masks, |input|)) != Ok(input)
    ensures |File(ts, masks, |input|)| <= 16 + |input| + (|input| + 7) / 8
  {
    hide File, Decode, Expands, MasksOf;
    if |input| >= WRAP {
      TooLong(ts, masks, input);
    } else if |File(ts, masks, |input|)| <= WRAP {
      DecodeFile(ts, masks, input);
    }
    FileSize(ts, masks, input);
  }

  // ---- decompression

  method Decompress(input: seq<byte>) returns (result: Result)
    ensures result == Decode(input)
  {
    hide MaskBit, DecodeFrom, At16;
    for i := 0 to 4
      invariant i <= |input| && input[..i] == MAGIC[..i]
    {
      if i >= |input| { return Invalid; }
      if input[i] != MAGIC[i] { return NotYay0; }
    }
    if |input| < 16 { return Invalid; }
    var finalSize: nat, linksOffset: nat, chunksOffset: nat := At32(input, 4), At32(input, 8), At32(input, 12);
    var masks := new MaskVectorReader(input, 16);
    var out: seq<byte> := [];
    while |out| < finalSize
      invariant masks.Valid() && masks.input == input && masks.Position() >= 128 && fresh(masks)
      invariant DecodeFrom(input, finalSize, Cursor(out, masks.Position() - 128, linksOffset, chunksOffset))
          == Decode(input)
      decreases finalSize - |out|
    {
      ghost var c := Cursor(out, masks.Position() - 128, linksOffset, chunksOffset);
      DecodeUnfold(input, finalSize, c);
      var mask := masks.PopFront();
      if mask == None { return Invalid; }
      if mask.value {
        if chunksOffset >= |input| { return Invalid; }
        out := out + [input[chunksOffset]];
        chunksOffset := (chunksOffset + 1) % WRAP;
      } else {
        if linksOffset + 2 > |input| { return Invalid; }
        var link := At16(input, linksOffset);
        linksOffset := (linksOffset + 2) % WRAP;
        var count := link / 0x1000 + 2;
        if count == 2 {
          if chunksOffset >= |input| { return Invalid; }
          count := input[chunksOffset] as int + 18;
          chunksOffset := (chunksOffset + 1) % WRAP;
        }
        var offset := link % 0x1000 + 1;
        if offset > |out| { return Invalid; }
        out := ReplayLink(out, offset, count);
      }
    }
    result := Ok(out);
    DecodeUnfold(input, finalSize, Cursor(out, masks.Position() - 128, linksOffset, chunksOffset));
  }

  lemma DecodeUnfold(input: seq<byte>, size: nat, c: Cursor)
    ensures |c.out| >= size ==> DecodeFrom(input, size, c) == Ok(c.out)
    ensures |c.out| < size ==>
              DecodeFrom(input, size, c)
              == match Round(input, c) case None => Invalid case Some(d) => DecodeFrom(input, size, d)
  {
  }

  method ReplayLink(out: seq<byte>, offset: nat, count: nat) returns (r: seq<byte>)
    requires 1 <= offset <= |out|
    ensures r == Replay(out, offset, count)
  {
    r := out;
    for i := 0 to count
      invariant |r| >= offset && Replay(r, offset, count - i) == Replay(out, offset, count)
    {
      r := r + [r[|r| - offset]];
    }
  }

  /** Every input that cannot make a file of more than 4 GiB survives compression and
      decompression. */
  method RoundTrip(input: seq<byte>) returns (result: Result)
    requires 16 + |input| + (|input| + 7) / 8 <= WRAP
    ensures result == Ok(input)
  {
    var compressed, _, _ := Compress(input);
    result := Decompress(compressed);
  }
}
