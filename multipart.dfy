/**
 * The bytes of one part of the `multipart/x-mixed-replace` body that the
 * stream handler writes, the fixed-size buffer its headers are formatted
 * into, and a receiver's reading of those bytes (the encoder's inverse).
 *
 * Layout of one part as written: the boundary chunk (the delimiter line of
 * section 5.1.1 of RFC 2046, "\r\n--frame\r\n", followed by the NUL that ends
 * the C literal, because the call passes 12 for 11 characters), the header
 * block "Content-Type: image/jpeg\r\nContent-Length: <N>\r\n\r\n" with N in
 * decimal (the Content-Length of section 8.6 of RFC 9110), and N payload bytes.
 */
module Multipart {
  import opened Wrappers
  import opened Ascii

  /** `char part_buf[64]` */
  const PART_BUF_SIZE: nat := 64

  /** The response type set once before the first part. */
  const STREAM_CONTENT_TYPE: string := "multipart/x-mixed-replace;boundary=frame"

  /** The delimiter literal the boundary write points at: 11 characters. */
  const BOUNDARY_LITERAL: string := "\r\n--frame\r\n"

  /** The length the boundary write passes with that literal. */
  const BOUNDARY_SEND_LEN: nat := 12

  /**
   * What the boundary write puts on the wire: "\r\n--frame\r\n" and a NUL
   * (BoundaryChunkEndsInNul relates it to the literal).
   */
  const BOUNDARY_CHUNK: seq<byte> := [13, 10, 45, 45, 102, 114, 97, 109, 101, 13, 10, 0]

  /** "Content-Type: image/jpeg\r\nContent-Length: ", the header block up to the value. */
  const HEADER_LEAD: seq<byte> :=
    [67, 111, 110, 116, 101, 110, 116, 45, 84, 121, 112, 101, 58, 32, 105, 109, 97, 103, 101, 47, 106,
     112, 101, 103, 13, 10, 67, 111, 110, 116, 101, 110, 116, 45, 76, 101, 110, 103, 116, 104, 58, 32]

  /** "\r\n\r\n": the end of the Content-Length line and the blank line. */
  const HEADER_END: seq<byte> := [13, 10, 13, 10]

  /**
   * The header block of a part whose payload has `len` bytes (the `snprintf`
   * format expanded): the Content-Type line and "Content-Length: ", then a
   * value and the blank line that a receiver reads back as `len`, with
   * nothing after it.
   */
  function PartHeader(len: nat): (r: seq<byte>)
    ensures |HEADER_LEAD| <= |r| && r[..|HEADER_LEAD|] == HEADER_LEAD
    ensures ParseLength(r[|HEADER_LEAD|..]) == Some((len, []))
  {
    ParseLengthOfDecimal(len, []);
    assert (HEADER_LEAD + Decimal(len) + HEADER_END)[|HEADER_LEAD|..] == Decimal(len) + HEADER_END + [];
    HEADER_LEAD + Decimal(len) + HEADER_END
  }

  /** All bytes of one part carrying `payload`. */
  function PartBytes(payload: seq<byte>): seq<byte> {
    BOUNDARY_CHUNK + PartHeader(|payload|) + payload
  }

  /** The parts carrying `payloads`, one after another. */
  function Parts(payloads: seq<seq<byte>>): seq<byte> {
    if payloads == [] then [] else PartBytes(payloads[0]) + Parts(payloads[1..])
  }

  /**
   * The boundary write sends the first 12 bytes of the 11-character literal's
   * storage: the delimiter line and then the literal's terminating NUL.
   */
  lemma BoundaryChunkEndsInNul()
    ensures |BOUNDARY_LITERAL| == 11 && |BOUNDARY_CHUNK| == BOUNDARY_SEND_LEN == 12
    ensures BOUNDARY_CHUNK == CLiteral(BOUNDARY_LITERAL)[..BOUNDARY_SEND_LEN]
    ensures BOUNDARY_CHUNK[..11] == Bytes(BOUNDARY_LITERAL) && BOUNDARY_CHUNK[11] == NUL
  {
  }

  /** The header constants are the text of the `snprintf` format around its `%u`. */
  lemma HeaderTextIsFormat()
    ensures HEADER_LEAD == Bytes("Content-Type: image/jpeg\r\nContent-Length: ")
    ensures HEADER_END == Bytes("\r\n\r\n")
  {
  }

  /**
   * For every 32-bit length the header block is 47 to 56 bytes long, so it
   * fits `part_buf` with its terminating NUL: `snprintf` never truncates it.
   */
  lemma PartHeaderFits(len: nat)
    requires len < UINT32_LIMIT
    ensures 47 <= |PartHeader(len)| <= 56 < PART_BUF_SIZE
  {
    Uint32Digits(len);
  }

  /**
   * A receiver's reading of what follows "Content-Length: ": a canonical
   * decimal value and the blank line. Gives the value and the bytes after it.
   */
  function ParseLength(s: seq<byte>): (r: Option<(nat, seq<byte>)>)
    ensures r.Some? ==> |r.value.1| < |s|
  {
    var k := DigitRun(s);
    if !Canonical(s[..k]) || |s| < k + |HEADER_END| || s[k..k + |HEADER_END|] != HEADER_END then None
    else Some((DigitsValue(s[..k]), s[k + |HEADER_END|..]))
  }

  /**
   * A receiver's reading of one part: the boundary chunk, the header lead, a
   * Content-Length N, the blank line, then N payload bytes. Gives the payload
   * and the bytes after the part.
   */
  function ParsePart(w: seq<byte>): (r: Option<(seq<byte>, seq<byte>)>)
    ensures r.Some? ==> |r.value.1| < |w|
  {
    var b, l := |BOUNDARY_CHUNK|, |HEADER_LEAD|;
    if |w| < b + l || w[..b] != BOUNDARY_CHUNK || w[b..b + l] != HEADER_LEAD then None
    else match ParseLength(w[b + l..])
      case None => None
      case Some((n, body)) => if |body| < n then None else Some((body[..n], body[n..]))
  }

  /** A receiver's reading of a whole body: parts until the bytes run out. */
  function ParseParts(w: seq<byte>): Option<seq<seq<byte>>>
    decreases |w|
  {
    if w == [] then Some([])
    else match ParsePart(w)
      case None => None
      case Some((payload, rest)) =>
        match ParseParts(rest)
        case None => None
        case Some(more) => Some([payload] + more)
  }

  /** The Content-Length value as printed reads back as the number printed. */
  lemma ParseLengthOfDecimal(n: nat, rest: seq<byte>)
    ensures ParseLength(Decimal(n) + HEADER_END + rest) == Some((n, rest))
  {
    var d := Decimal(n);
    var s := d + HEADER_END + rest;
    assert s == d + (HEADER_END + rest);
    DigitRunOfDigits(d, HEADER_END + rest);
    assert s[..|d|] == d;
    DigitsValueOfDecimal(n);
    assert s[|d|..|d| + |HEADER_END|] == HEADER_END;
    assert s[|d| + |HEADER_END|..] == rest;
  }

  /** Whatever a receiver reads as a Content-Length line is that value as printed. */
  lemma ParsedLengthIsDecimal(s: seq<byte>)
    requires ParseLength(s).Some?
    ensures s == Decimal(ParseLength(s).value.0) + HEADER_END + ParseLength(s).value.1
  {
    var k := DigitRun(s);
    var e := |HEADER_END|;
    DecimalOfDigitsValue(s[..k]);
    assert s == s[..k] + s[k..k + e] + s[k + e..];
  }

  /** A receiver recovers each payload: the Content-Length it reads is the payload's length. */
  lemma ParsePartBytes(payload: seq<byte>, rest: seq<byte>)
    ensures ParsePart(PartBytes(payload) + rest) == Some((payload, rest))
  {
    var w := PartBytes(payload) + rest;
    var b, l := |BOUNDARY_CHUNK|, |HEADER_LEAD|;
    var tail := Decimal(|payload|) + HEADER_END + (payload + rest);
    assert w == BOUNDARY_CHUNK + HEADER_LEAD + tail;
    assert w[..b] == BOUNDARY_CHUNK;
    assert w[b..b + l] == HEADER_LEAD;
    assert w[b + l..] == tail;
    ParseLengthOfDecimal(|payload|, payload + rest);
    assert (payload + rest)[..|payload|] == payload;
    assert (payload + rest)[|payload|..] == rest;
  }

  /** Conversely, whatever a receiver reads as a part is exactly the bytes the encoder gives for it. */
  lemma ParsedPartIsPartBytes(w: seq<byte>)
    requires ParsePart(w).Some?
    ensures w == PartBytes(ParsePart(w).value.0) + ParsePart(w).value.1
  {
    var b, l := |BOUNDARY_CHUNK|, |HEADER_LEAD|;
    var lead, s := w[..b + l], w[b + l..];
    assert lead == BOUNDARY_CHUNK + HEADER_LEAD;
    ParsedLengthIsDecimal(s);
    var (n, body) := ParseLength(s).value;
    var (payload, rest) := ParsePart(w).value;
    assert |payload| == n && body == payload + rest;
    assert w == lead + s;
    Regroup(BOUNDARY_CHUNK, HEADER_LEAD, Decimal(n), HEADER_END, payload, rest);
  }

  lemma Regroup<T>(a: seq<T>, b: seq<T>, c: seq<T>, d: seq<T>, e: seq<T>, f: seq<T>)
    ensures (a + b) + (c + d + (e + f)) == a + (b + c + d) + e + f
  {
  }

  /** The parts of a sequence of payloads read back as that sequence, in order. */
  lemma {:induction false} ParsePartsOfParts(payloads: seq<seq<byte>>)
    ensures ParseParts(Parts(payloads)) == Some(payloads)
  {
    if payloads != [] {
      ParsePartBytes(payloads[0], Parts(payloads[1..]));
      ParsePartsOfParts(payloads[1..]);
      assert [payloads[0]] + payloads[1..] == payloads;
    }
  }

  /**
   * `snprintf(buf, buf.Length, ...)` once the format is expanded to `text`:
   * stores as much of `text` as fits in front of a terminating NUL, leaves the
   * rest of `buf` alone, and returns the length of `text` whether or not all
   * of it fitted.
   */
  method Snprintf(buf: array<byte>, text: seq<byte>) returns (n: nat)
    modifies buf
    ensures n == |text|
    ensures buf.Length == 0 ==> buf[..] == old(buf[..])
    ensures buf.Length > 0 ==>
      var m := if |text| < buf.Length then |text| else buf.Length - 1;
      buf[..m] == text[..m] && buf[m] == NUL && buf[m + 1..] == old(buf[m + 1..])
  {
    n := |text|;
    if buf.Length == 0 {
      return;
    }
    var m := if |text| < buf.Length then |text| else buf.Length - 1;
    var i := 0;
    while i < m
      invariant 0 <= i <= m
      invariant buf[..i] == text[..i]
      invariant buf[i..] == old(buf[i..])
    {
      ghost var before := buf[..];
      assert before[i + 1..] == before[i..][1..] == old(buf[i..])[1..] == old(buf[i + 1..]);
      buf[i] := text[i];
      assert buf[i + 1..] == before[i + 1..];
      i := i + 1;
    }
    ghost var copied := buf[..];
    assert copied[m + 1..] == copied[m..][1..] == old(buf[m..])[1..] == old(buf[m + 1..]);
    buf[m] := NUL;
    assert buf[..m] == copied[..m] && buf[m + 1..] == copied[m + 1..];
  }

  /**
   * The handler's `snprintf(part_buf, sizeof(part_buf), "...%u...", fb->len)`:
   * for every 32-bit length the whole header block is formatted, and the
   * returned length is exactly the bytes it occupies.
   */
  method FormatPartHeader(partBuf: array<byte>, len: nat) returns (hlen: nat)
    requires partBuf.Length == PART_BUF_SIZE && len < UINT32_LIMIT
    modifies partBuf
    ensures hlen < PART_BUF_SIZE
    ensures partBuf[..hlen] == PartHeader(len)
    ensures partBuf[hlen] == NUL && partBuf[hlen + 1..] == old(partBuf[hlen + 1..])
  {
    PartHeaderFits(len);
    hlen := Snprintf(partBuf, PartHeader(len));
    assert PartHeader(len)[..hlen] == PartHeader(len);
  }
}
