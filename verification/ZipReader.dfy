/** The reader of one entry of a ZIP file: a walk over local file headers (section 4.3.7 of the PKWARE
    APPNOTE). It needs no central directory and skips whatever is not a header. */
module ZipReader {

  type byte = x: int | 0 <= x < 256

  const SIGNATURE := 0x04034b50

  function U16(s: seq<byte>, i: nat): nat
    requires i + 2 <= |s|
  {
    s[i] as int + 0x100 * (s[i + 1] as int)
  }

  function U32(s: seq<byte>, i: nat): nat
    requires i + 4 <= |s|
  {
    s[i] as int + 0x100 * (s[i + 1] as int) + 0x1_0000 * (s[i + 2] as int) + 0x100_0000 * (s[i + 3] as int)
  }

  /** `buf.subarray(from, to)`: both ends clamped to the buffer. */
  function Sub(s: seq<byte>, from: nat, to: nat): seq<byte>
    requires from <= to
  {
    var lo := if from < |s| then from else |s|;
    var hi := if to < |s| then to else |s|;
    s[lo..hi]
  }

  /** What the reader returns: the bytes of a stored entry or of a deflated one, which is then inflated, or
      the error for any other compression method. */
  datatype Result = Missing | Stored(data: seq<byte>) | Deflated(data: seq<byte>) | Unsupported

  /** `toString('utf8')` of a file name. */
  type Decoder = seq<byte> -> string

  function Unpack(compression: nat, data: seq<byte>): Result {
    if compression == 0 then Stored(data) else if compression == 8 then Deflated(data) else Unsupported
  }

  /** The walk from an offset on. */
  function Walk(buf: seq<byte>, decode: Decoder, name: string, off: nat): Result
    decreases |buf| - off
  {
    if off + 30 >= |buf| then Missing
    else if U32(buf, off) != SIGNATURE then Walk(buf, decode, name, off + 1)
    else
      var nlen, elen, csize := U16(buf, off + 26), U16(buf, off + 28), U32(buf, off + 18);
      var start := off + 30 + nlen + elen;
      if decode(Sub(buf, off + 30, off + 30 + nlen)) == name
      then Unpack(U16(buf, off + 8), Sub(buf, start, start + csize))
      else if start + csize <= |buf| then Walk(buf, decode, name, start + csize)
      else Missing
  }

  /** Reading the fields of a header in its 30 bytes or in the buffer is the same. */
  lemma HeaderWindow(s: seq<byte>, off: nat)
    requires off + 30 <= |s|
    ensures var head := s[off..off + 30];
      && U32(head, 0) == U32(s, off) && U16(head, 8) == U16(s, off + 8) && U32(head, 18) == U32(s, off + 18)
      && U16(head, 26) == U16(s, off + 26) && U16(head, 28) == U16(s, off + 28)
  {
  }

  /** `readZipEntry`. That every read is in bounds and that the loop ends is part of what is verified. */
  method ReadZipEntry(buf: array<byte>, decode: Decoder, name: string) returns (r: Result)
    ensures r == Walk(buf[..], decode, name, 0)
  {
    hide U16, U32, Sub;
    var off := 0;
    while off + 30 < buf.Length
      invariant Walk(buf[..], decode, name, 0) == if off <= buf.Length then Walk(buf[..], decode, name, off)
        else Missing
      decreases buf.Length - off
    {
      var head := buf[off..off + 30];
      if U32(head, 0) != SIGNATURE {
        HeaderWindow(buf[..], off);
        off := off + 1;
        continue;
      }
      var compression, csize, nlen, elen := U16(head, 8), U32(head, 18), U16(head, 26), U16(head, 28);
      HeaderWindow(buf[..], off);
      var fname := decode(Sub(buf[..], off + 30, off + 30 + nlen));
      var start := off + 30 + nlen + elen;
      var data := Sub(buf[..], start, start + csize);
      if fname == name {
        if compression == 0 {
          return Stored(data);
        }
        if compression == 8 {
          return Deflated(data);
        }
        return Unsupported;
      }
      off := start + csize;
    }
    r := Missing;
  }

  /** On any buffer: whatever is returned was announced by a header with the requested name. */
  lemma {:induction false} FoundUnderItsName(buf: seq<byte>, decode: Decoder, name: string, off: nat) returns (at: nat)
    requires Walk(buf, decode, name, off) != Missing
    ensures off <= at && at + 30 < |buf| && U32(buf, at) == SIGNATURE
    ensures decode(Sub(buf, at + 30, at + 30 + U16(buf, at + 26))) == name
    ensures var start := at + 30 + U16(buf, at + 26) + U16(buf, at + 28);
      Walk(buf, decode, name, off) == Unpack(U16(buf, at + 8), Sub(buf, start, start + U32(buf, at + 18)))
    decreases |buf| - off
  {
    hide U16, U32, Sub, Unpack;
    if U32(buf, off) != SIGNATURE {
      at := FoundUnderItsName(buf, decode, name, off + 1);
    } else if decode(Sub(buf, off + 30, off + 30 + U16(buf, off + 26))) == name {
      at := off;
    } else {
      at := FoundUnderItsName(buf, decode, name, off + 30 + U16(buf, off + 26) + U16(buf, off + 28)
        + U32(buf, off + 18));
    }
  }

  // ---------- Archives ----------

  /** A local file header with its data; `versions` is version and flags, `stamps` time, date and CRC. */
  datatype Entry = Entry(
    versions: seq<byte>,
    compression: nat,
    stamps: seq<byte>,
    plainSize: seq<byte>,
    name: seq<byte>,
    extra: seq<byte>,
    data: seq<byte>)

  ghost predicate ValidEntry(e: Entry) {
    && |e.versions| == 4 && |e.stamps| == 8 && |e.plainSize| == 4
    && e.compression < 0x1_0000
    && |e.name| < 0x1_0000
    && |e.extra| < 0x1_0000
    && |e.data| < 0x1_0000_0000
  }

  ghost function LE16(n: nat): seq<byte>
    requires n < 0x1_0000
  {
    [n % 0x100, n / 0x100]
  }

  ghost function LE32(n: nat): seq<byte>
    requires n < 0x1_0000_0000
  {
    LE16(n % 0x1_0000) + LE16(n / 0x1_0000)
  }

  ghost function Header(e: Entry): seq<byte>
    requires ValidEntry(e)
  {
    [0x50, 0x4b, 3, 4] + e.versions + LE16(e.compression) + e.stamps + LE32(|e.data|) + e.plainSize
    + LE16(|e.name|) + LE16(|e.extra|)
  }

  ghost function Encode(e: Entry): seq<byte>
    requires ValidEntry(e)
  {
    Header(e) + e.name + e.extra + e.data
  }

  /** An entry with whatever precedes it. */
  datatype Part = Part(junk: seq<byte>, entry: Entry)

  ghost function EncodeAll(parts: seq<Part>, tail: seq<byte>): seq<byte>
    requires forall i :: 0 <= i < |parts| ==> ValidEntry(parts[i].entry)
  {
    if parts == [] then tail else parts[0].junk + (Encode(parts[0].entry) + EncodeAll(parts[1..], tail))
  }

  ghost predicate SignatureAt(s: seq<byte>, i: nat)
    requires i + 4 <= |s|
  {
    s[i..i + 4] == [0x50, 0x4b, 3, 4]
  }

  ghost predicate SignatureFree(s: seq<byte>) {
    forall i: nat :: i + 4 <= |s| ==> !SignatureAt(s, i)
  }

  /** No signature where the walk still looks for one: it gives up 30 bytes before the end. */
  ghost predicate SkippedTail(s: seq<byte>) {
    forall i: nat :: i + 30 < |s| ==> !SignatureAt(s, i)
  }

  /** Nothing but a header. */
  ghost predicate Bare(e: Entry) {
    e.name == [] && e.extra == [] && e.data == []
  }

  /** The entry a reader should return: the first of that name. */
  ghost function FirstNamed(parts: seq<Part>, decode: Decoder, name: string): Result {
    if parts == [] then Missing
    else if decode(parts[0].entry.name) == name then
      (if parts[0].entry.compression == 0 then Stored(parts[0].entry.data)
       else if parts[0].entry.compression == 8 then Deflated(parts[0].entry.data)
       else Unsupported)
    else FirstNamed(parts[1..], decode, name)
  }

  // ---------- The walk finds the first entry of a name ----------

  lemma SignatureBytes(s: seq<byte>, i: nat)
    requires i + 4 <= |s|
    ensures U32(s, i) == SIGNATURE <==> SignatureAt(s, i)
  {
    assert s[i..i + 4] == [s[i], s[i + 1], s[i + 2], s[i + 3]];
  }

  /** The walk only looks ahead. */
  lemma {:induction false} WalkShift(before: seq<byte>, s: seq<byte>, decode: Decoder, name: string, k: nat)
    ensures Walk(before + s, decode, name, |before| + k) == Walk(s, decode, name, k)
    decreases |s| - k
  {
    hide U16, U32, Sub, Unpack;
    if k + 30 < |s| {
      HeaderShift(before, s, k);
      if U32(s, k) != SIGNATURE {
        WalkShift(before, s, decode, name, k + 1);
      } else {
        var nlen := U16(s, k + 26);
        var start := k + 30 + nlen + U16(s, k + 28);
        SubShift(before, s, k + 30, k + 30 + nlen);
        SubShift(before, s, start, start + U32(s, k + 18));
        if start + U32(s, k + 18) <= |s| {
          WalkShift(before, s, decode, name, start + U32(s, k + 18));
        }
      }
    }
  }

  lemma HeaderShift(before: seq<byte>, s: seq<byte>, k: nat)
    requires k + 30 <= |s|
    ensures var all, off := before + s, |before| + k;
      && U32(all, off) == U32(s, k) && U32(all, off + 18) == U32(s, k + 18)
      && U16(all, off + 8) == U16(s, k + 8) && U16(all, off + 26) == U16(s, k + 26)
      && U16(all, off + 28) == U16(s, k + 28)
  {
    HeaderWindow(before + s, |before| + k);
    HeaderWindow(s, k);
    assert (before + s)[|before| + k..|before| + k + 30] == s[k..k + 30];
  }

  lemma SubShift(before: seq<byte>, s: seq<byte>, from: nat, to: nat)
    requires from <= to
    ensures Sub(before + s, |before| + from, |before| + to) == Sub(s, from, to)
  {
  }

  lemma NoSignatureAcrossJunk(junk: seq<byte>, e: Entry, rest: seq<byte>)
    requires SignatureFree(junk) && ValidEntry(e) && junk != []
    ensures |Encode(e)| >= 30 && !SignatureAt(junk + (Encode(e) + rest), 0)
  {
    var all := junk + (Encode(e) + rest);
    assert Encode(e)[0] == 0x50;
    if |junk| >= 4 {
      assert all[0..4] == junk[0..4];
      assert !SignatureAt(junk, 0);
    } else {
      assert all[0..4][|junk|] == 0x50;
    }
  }

  /** No header starts in junk, not even one that would run over into the next header. */
  lemma {:induction false} WalkSkipsJunk(junk: seq<byte>, e: Entry, rest: seq<byte>, decode: Decoder, name: string)
    requires SignatureFree(junk) && ValidEntry(e) && (Bare(e) ==> rest != [])
    ensures Walk(junk + (Encode(e) + rest), decode, name, 0) == Walk(Encode(e) + rest, decode, name, 0)
    decreases |junk|
  {
    var s := Encode(e) + rest;
    if junk == [] {
      assert junk + s == s;
    } else {
      var all := junk + s;
      assert |s| > 30;
      NoSignatureAcrossJunk(junk, e, rest);
      SignatureBytes(all, 0);
      assert all == [junk[0]] + (junk[1..] + s);
      WalkShift([junk[0]], junk[1..] + s, decode, name, 0);
      forall i: nat | i + 4 <= |junk[1..]| ensures !SignatureAt(junk[1..], i) {
        assert junk[1..][i..i + 4] == junk[i + 1..i + 5];
        assert !SignatureAt(junk, i + 1);
      }
      WalkSkipsJunk(junk[1..], e, rest, decode, name);
    }
  }

  lemma {:induction false} WalkSkipsTail(tail: seq<byte>, decode: Decoder, name: string, off: nat)
    requires SkippedTail(tail)
    ensures Walk(tail, decode, name, off) == Missing
    decreases |tail| - off
  {
    if off + 30 < |tail| {
      SignatureBytes(tail, off);
      WalkSkipsTail(tail, decode, name, off + 1);
    }
  }

  lemma LittleEndian16(n: nat, s: seq<byte>, i: nat)
    requires n < 0x1_0000 && i + 2 <= |s| && s[i..i + 2] == LE16(n)
    ensures U16(s, i) == n
  {
    assert s[i] == s[i..i + 2][0] && s[i + 1] == s[i..i + 2][1];
  }

  lemma LittleEndian32(n: nat, s: seq<byte>, i: nat)
    requires n < 0x1_0000_0000 && i + 4 <= |s| && s[i..i + 4] == LE32(n)
    ensures U32(s, i) == n
  {
    assert s[i..i + 2] == s[i..i + 4][..2] == LE16(n % 0x1_0000);
    assert s[i + 2..i + 4] == s[i..i + 4][2..] == LE16(n / 0x1_0000);
    LittleEndian16(n % 0x1_0000, s, i);
    LittleEndian16(n / 0x1_0000, s, i + 2);
    assert U32(s, i) == U16(s, i) + 0x1_0000 * U16(s, i + 2);
  }

  lemma HeaderFields(e: Entry)
    requires ValidEntry(e)
    ensures |Header(e)| == 30
    ensures U32(Header(e), 0) == SIGNATURE
    ensures U16(Header(e), 8) == e.compression
    ensures U32(Header(e), 18) == |e.data|
    ensures U16(Header(e), 26) == |e.name|
    ensures U16(Header(e), 28) == |e.extra|
  {
    var h := Header(e);
    assert h[8..10] == LE16(e.compression);
    LittleEndian16(e.compression, h, 8);
    assert h[18..22] == LE32(|e.data|);
    LittleEndian32(|e.data|, h, 18);
    assert h[26..28] == LE16(|e.name|);
    LittleEndian16(|e.name|, h, 26);
    assert h[28..30] == LE16(|e.extra|);
    LittleEndian16(|e.extra|, h, 28);
  }

  /** At a header, the walk either returns the data of the entry or goes on right behind it. */
  lemma WalkReadsEntry(e: Entry, rest: seq<byte>, decode: Decoder, name: string)
    requires ValidEntry(e) && (Bare(e) ==> rest != [])
    ensures Walk(Encode(e) + rest, decode, name, 0)
         == if decode(e.name) == name then Unpack(e.compression, e.data) else Walk(rest, decode, name, 0)
  {
    hide *;
    var s := Encode(e) + rest;
    EncodedFields(e, rest);
    EncodedParts(e, rest);
    WalkShift(Encode(e), rest, decode, name, 0);
    WalkAtHeader(s, decode, name);
  }

  lemma WalkAtHeader(s: seq<byte>, decode: Decoder, name: string)
    requires 30 < |s| && U32(s, 0) == SIGNATURE
    requires 30 + U16(s, 26) + U16(s, 28) + U32(s, 18) <= |s|
    ensures var start := 30 + U16(s, 26) + U16(s, 28);
      Walk(s, decode, name, 0)
      == if decode(Sub(s, 30, 30 + U16(s, 26))) == name then Unpack(U16(s, 8), Sub(s, start, start + U32(s, 18)))
         else Walk(s, decode, name, start + U32(s, 18))
  {
    hide U16, U32, Sub, Unpack;
  }

  lemma EncodedFields(e: Entry, rest: seq<byte>)
    requires ValidEntry(e) && (Bare(e) ==> rest != [])
    ensures var s := Encode(e) + rest;
      && |s| > 30 && U32(s, 0) == SIGNATURE && U16(s, 8) == e.compression && U32(s, 18) == |e.data|
      && U16(s, 26) == |e.name| && U16(s, 28) == |e.extra|
  {
    HeaderFields(e);
    hide Header, U16, U32;
    var s := Encode(e) + rest;
    assert s[0..30] == Header(e);
    HeaderWindow(s, 0);
    HeaderWindow(Header(e), 0);
    assert Header(e)[0..30] == Header(e);
  }

  lemma EncodedParts(e: Entry, rest: seq<byte>)
    requires ValidEntry(e)
    ensures var s, start := Encode(e) + rest, 30 + |e.name| + |e.extra|;
      && Sub(s, 30, 30 + |e.name|) == e.name
      && Sub(s, start, start + |e.data|) == e.data
      && start + |e.data| == |Encode(e)|
  {
    HeaderFields(e);
    hide Header;
  }

  /** On entries with signature-free junk before them and a tail that is skipped, the reader returns exactly
      the data of the first entry of the requested name, and nothing if there is none. The very last
      bytes must not be a bare header. */
  lemma {:induction false} ReadsFirstNamed(parts: seq<Part>, tail: seq<byte>, decode: Decoder, name: string)
    requires forall i :: 0 <= i < |parts| ==> ValidEntry(parts[i].entry) && SignatureFree(parts[i].junk)
    requires SkippedTail(tail)
    requires parts != [] && tail == [] ==> !Bare(parts[|parts| - 1].entry)
    ensures Walk(EncodeAll(parts, tail), decode, name, 0) == FirstNamed(parts, decode, name)
  {
    if parts == [] {
      WalkSkipsTail(tail, decode, name, 0);
    } else {
      var rest := EncodeAll(parts[1..], tail);
      assert |parts| > 1 ==> |Encode(parts[1..][0].entry)| >= 30;
      WalkSkipsJunk(parts[0].junk, parts[0].entry, rest, decode, name);
      WalkReadsEntry(parts[0].entry, rest, decode, name);
      ReadsFirstNamed(parts[1..], tail, decode, name);
    }
  }

  /** A bare header at the very end is where the loop has already given up: such an entry is not found, even
      if it has the requested name, and the rest of the archive is read as if it were not there. */
  lemma BareLastHeaderIsSkipped(junk: seq<byte>, e: Entry)
    requires SignatureFree(junk) && ValidEntry(e) && Bare(e)
    ensures SkippedTail(junk + Encode(e))
  {
    var all := junk + Encode(e);
    forall i: nat | i + 30 < |all| ensures !SignatureAt(all, i) {
      var later := junk[i..];
      forall j: nat | j + 4 <= |later| ensures !SignatureAt(later, j) {
        assert later[j..j + 4] == junk[i + j..i + j + 4];
        assert !SignatureAt(junk, i + j);
      }
      NoSignatureAcrossJunk(later, e, []);
      assert all[i..i + 4] == (later + (Encode(e) + []))[0..4];
    }
  }
}
