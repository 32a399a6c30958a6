/** The encrypted log format: the framing written by
    core/src/ten_utils/log/encryption.c and read back by tools/decrypt/decrypt.py.

    AES in CTR mode (section 6.5 of NIST SP 800-38A) is a keystream, a function
    from positions to bytes, that is XORed in; writer and reader restart it at
    position 0 for every entry. */
module LogDecrypt {

  import opened Sequences
  import opened Wrappers

  type Keystream = nat -> Byte

  const HEADER := 5

  /** Bitwise exclusive or of two numbers of the given width. */
  function BitXor(a: nat, b: nat, width: nat): (r: nat)
  {
    if width == 0 then 0
    else (if a % 2 != b % 2 then 1 else 0) + 2 * BitXor(a / 2, b / 2, width - 1)
  }

  lemma BitXorBound(a: nat, b: nat, width: nat)
    ensures BitXor(a, b, width) < Pow2(width)
  {
  }

  function Pow2(n: nat): nat {
    if n == 0 then 1 else 2 * Pow2(n - 1)
  }

  function XorByte(a: Byte, b: Byte): Byte {
    BitXorBound(a, b, 8);
    EightBits();
    BitXor(a, b, 8)
  }

  /** Bit k, counted from the lowest. */
  function Bit(n: nat, k: nat): nat {
    if k == 0 then n % 2 else Bit(n / 2, k - 1)
  }

  lemma {:induction false} BitOfXor(a: nat, b: nat, width: nat, k: nat)
    requires k < width
    ensures Bit(BitXor(a, b, width), k) == if Bit(a, k) != Bit(b, k) then 1 else 0
    decreases k
  {
    var rest := BitXor(a / 2, b / 2, width - 1);
    assert BitXor(a, b, width) / 2 == rest;
    if k > 0 {
      BitOfXor(a / 2, b / 2, width - 1, k - 1);
    }
  }

  /** Each bit is set exactly where the two bytes differ. */
  lemma XorByteBits(a: Byte, b: Byte, k: nat)
    requires k < 8
    ensures Bit(XorByte(a, b), k) == if Bit(a, k) != Bit(b, k) then 1 else 0
  {
    BitOfXor(a, b, 8, k);
  }

  lemma XorByteParity(a: Byte, b: Byte)
    ensures XorByte(a, b) % 2 == (a as int + b as int) % 2
  {
  }

  lemma EightBits()
    ensures Pow2(8) == 256
  {
  }

  lemma {:induction false} BitXorTwice(a: nat, k: nat, width: nat)
    requires a < Pow2(width)
    ensures BitXor(BitXor(a, k, width), k, width) == a
  {
    if width > 0 {
      BitXorTwice(a / 2, k / 2, width - 1);
      FirstBit(a, k, width);
      FirstBit(BitXor(a, k, width), k, width);
    }
  }

  lemma FirstBit(a: nat, b: nat, width: nat)
    requires width > 0
    ensures BitXor(a, b, width) % 2 == (if a % 2 != b % 2 then 1 else 0)
    ensures BitXor(a, b, width) / 2 == BitXor(a / 2, b / 2, width - 1)
  {
  }

  function Xor(ks: Keystream, data: seq<Byte>): (r: seq<Byte>)
    ensures |r| == |data| && forall i :: 0 <= i < |r| ==> r[i] == XorByte(data[i], ks(i))
  {
    seq<Byte>(|data|, i requires 0 <= i < |data| => XorByte(data[i], ks(i)))
  }

  // ----- headers

  /** A header starts with two 0xFF bytes, and the top bit of its third byte
      says whether the number of odd bytes among the five is odd. */
  predicate ValidHeader(h: seq<Byte>)
    requires |h| >= HEADER
  {
    h[0] == 0xFF && h[1] == 0xFF && (h[2] >= 128 <==> (h[2] as int + h[3] as int + h[4] as int) % 2 == 1)
  }

  function HeaderLength(h: seq<Byte>): (n: nat)
    requires |h| >= HEADER
    ensures n < 65536
  {
    h[3] as int * 256 + h[4] as int
  }

  /** The header check: the parity is accumulated with bit 7 of byte 2 cleared
      (`& 0x7F` is `% 128`, `>> 7` is `/ 128`, and `& 1` is `% 2`). */
  method ParseLogHeader(data: seq<Byte>) returns (valid: bool, dataLen: nat)
    ensures valid <==> |data| >= HEADER && ValidHeader(data)
    ensures valid <==>
      |data| >= 5 && data[0] == data[1] == 0xFF && data[2] / 128 == (data[2] as int + data[3] as int + data[4] as int) % 2
    ensures dataLen == if valid then data[3] as int * 256 + data[4] as int else 0
  {
    if |data| < 5 {
      return false, 0;
    }
    if data[0] != 0xFF || data[1] != 0xFF {
      return false, 0;
    }
    var parityBit := data[2] / 128 % 2;
    var calculatedParity: Byte := 0;
    for i := 0 to 5
      invariant calculatedParity % 2 == Sum(data[..i]) % 2
    {
      var byteVal := data[i];
      if i == 2 {
        byteVal := byteVal % 128;
      }
      ParityNext(calculatedParity, byteVal, data, i);
      calculatedParity := XorByte(calculatedParity, byteVal);
    }
    calculatedParity := calculatedParity % 2;
    SumOfHeader(data);
    if parityBit != calculatedParity {
      return false, 0;
    }
    dataLen := data[3] as int * 256 + data[4] as int;
    return true, dataLen;
  }

  function Sum(data: seq<Byte>): nat {
    if data == [] then 0 else Sum(data[..|data| - 1]) + data[|data| - 1]
  }

  lemma SumSnoc(data: seq<Byte>, i: nat)
    requires i < |data|
    ensures Sum(data[..i + 1]) == Sum(data[..i]) + data[i]
  {
    assert data[..i + 1][..i] == data[..i];
  }

  /** A byte of the same parity as data[i] is XORed in. */
  lemma ParityNext(parity: Byte, byteVal: Byte, data: seq<Byte>, i: nat)
    requires i < |data| && byteVal % 2 == data[i] % 2 && parity % 2 == Sum(data[..i]) % 2
    ensures XorByte(parity, byteVal) % 2 == Sum(data[..i + 1]) % 2
  {
    SumSnoc(data, i);
    XorByteParity(parity, byteVal);
    ParityAdds(parity, Sum(data[..i]), byteVal, data[i]);
  }

  lemma ParityAdds(a: nat, b: nat, c: nat, d: nat)
    requires a % 2 == b % 2 && c % 2 == d % 2
    ensures (a + c) % 2 == (b + d) % 2
  {
  }

  lemma SumOfHeader(data: seq<Byte>)
    requires |data| >= HEADER
    ensures Sum(data[..5]) == data[0] as int + data[1] as int + data[2] as int + data[3] as int + data[4] as int
  {
    SumSnoc(data, 0);
    SumSnoc(data, 1);
    SumSnoc(data, 2);
    SumSnoc(data, 3);
    SumSnoc(data, 4);
  }

  // ----- the writer

  /** The five bytes written in front of a payload of n bytes; lengths of 65536
      and more lose their high bits. */
  function Header(n: nat): (h: seq<Byte>)
    ensures |h| == HEADER
  {
    var hi := n / 256 % 256;
    var lo := n % 256;
    [0xFF, 0xFF, (hi + lo) % 2 * 128, hi, lo]
  }

  function Encode(ks: Keystream, payload: seq<Byte>): seq<Byte> {
    Header(|payload|) + Xor(ks, payload)
  }

  /** Fills in the header of a buffer that holds five spare bytes and the data. */
  method CompleteEncryptionHeader(buf: array<Byte>)
    requires buf.Length >= HEADER
    modifies buf
    ensures buf[..] == Header(buf.Length - HEADER) + old(buf[HEADER..])
    ensures buf[0] == buf[1] == 0xFF && buf[2] == (buf[3] as int + buf[4] as int) % 2 * 128
    ensures buf[3] == (buf.Length - 5) / 256 % 256 && buf[4] == (buf.Length - 5) % 256
    ensures buf[5..] == old(buf[5..])
  {
    var dataLen := buf.Length - 5;
    ghost var data := buf[HEADER..];
    buf[0] := 0xFF;
    buf[1] := 0xFF;
    buf[2] := 0x00;
    buf[3] := dataLen / 256 % 256;
    buf[4] := dataLen % 256;
    var parity: Byte := 0;
    ghost var filled := buf[..];
    for i := 0 to 5
      invariant buf[..] == filled
      invariant parity % 2 == Sum(filled[..i]) % 2
    {
      ParityNext(parity, buf[i], filled, i);
      parity := XorByte(parity, buf[i]);
    }
    SumOfHeader(filled);
    buf[2] := buf[2] + parity % 2 * 128;
    HeaderFilled(buf[..], filled, data, parity);
  }

  /** With its parity bit set the filled buffer starts with the header. */
  lemma HeaderFilled(s: seq<Byte>, filled: seq<Byte>, data: seq<Byte>, parity: Byte)
    requires |filled| == HEADER + |data| && filled[HEADER..] == data
    requires filled[..3] == [0xFF, 0xFF, 0]
    requires filled[3] == |data| / 256 % 256 && filled[4] == |data| % 256
    requires parity % 2 == (0xFF + 0xFF + 0 + filled[3] as int + filled[4] as int) % 2
    requires s == filled[2 := parity % 2 * 128]
    ensures s == Header(|data|) + data
  {
    assert forall i :: 0 <= i < |data| ==> s[HEADER + i] == filled[HEADER..][i];
    assert filled[0] == 0xFF && filled[1] == 0xFF;
  }

  /** The two length bytes are the length modulo 65536. */
  lemma TwoBytes(n: nat)
    ensures n % 65536 == n / 256 % 256 * 256 + n % 256
  {
    var q, lo := n / 256, n % 256;
    var high, hi := q / 256, q % 256;
    assert n == 65536 * high + (256 * hi + lo);
    RemainderIs(n, high, 256 * hi + lo);
  }

  lemma RemainderIs(n: nat, q: nat, r: nat)
    requires n == 65536 * q + r && r < 65536
    ensures n % 65536 == r
  {
  }

  lemma HeaderRoundTrip(n: nat)
    ensures ValidHeader(Header(n)) && HeaderLength(Header(n)) == n % 65536
  {
    TwoBytes(n);
  }

  // ----- the reader

  predicate HeaderAt(s: seq<Byte>, i: nat) {
    i + HEADER <= |s| && ValidHeader(s[i..i + HEADER])
  }

  function Min(a: nat, b: nat): nat {
    if a < b then a else b
  }

  /** What the tool writes for an input: entries are decrypted in turn, a bad
      header moves one byte ahead, and a cut-off payload is decrypted as far as
      it goes. */
  function Decode(ks: Keystream, s: seq<Byte>): seq<Byte>
    decreases |s|
  {
    if |s| < HEADER then
      []
    else if !ValidHeader(s[..HEADER]) then
      Decode(ks, s[1..])
    else
      var n := Min(HeaderLength(s[..HEADER]), |s| - HEADER);
      Xor(ks, s[HEADER..HEADER + n]) + Decode(ks, s[HEADER + n..])
  }

  lemma DecodeFirst(ks: Keystream, s: seq<Byte>, n: nat)
    requires |s| >= HEADER && ValidHeader(s[..HEADER]) && n == Min(HeaderLength(s[..HEADER]), |s| - HEADER)
    ensures Decode(ks, s) == Xor(ks, s[HEADER..HEADER + n]) + Decode(ks, s[HEADER + n..])
  {
  }

  /** file.read(n): the bytes read are those up to the new position. */
  function ReadEnd(input: seq<Byte>, pos: nat, n: nat): (end: nat)
    requires pos <= |input|
    ensures pos <= end <= |input| && end - pos <= n
  {
    pos + Min(n, |input| - pos)
  }

  /** At pos of the input, output is what precedes pos, decoded. */
  ghost predicate DecodedTo(ks: Keystream, input: seq<Byte>, pos: nat, output: seq<Byte>)
    requires pos <= |input|
  {
    output + Decode(ks, input[pos..]) == Decode(ks, input)
  }

  lemma DecodedNothing(ks: Keystream, input: seq<Byte>)
    ensures DecodedTo(ks, input, 0, [])
  {
    assert input[0..] == input;
  }

  lemma DecodedAll(ks: Keystream, input: seq<Byte>, pos: nat, output: seq<Byte>)
    requires pos <= |input| < pos + HEADER && DecodedTo(ks, input, pos, output)
    ensures output == Decode(ks, input)
  {
    assert Decode(ks, input[pos..]) == [];
  }

  lemma SkipByte(ks: Keystream, input: seq<Byte>, pos: nat, output: seq<Byte>)
    requires pos + HEADER <= |input| && !ValidHeader(input[pos..pos + HEADER]) && DecodedTo(ks, input, pos, output)
    ensures DecodedTo(ks, input, pos + 1, output)
  {
    DropTwice(input, pos, HEADER);
    DropTwice(input, pos, 1);
  }

  lemma DecodeFirstAt(ks: Keystream, input: seq<Byte>, pos: nat, n: nat)
    requires pos + HEADER <= |input| && ValidHeader(input[pos..pos + HEADER])
    requires n == Min(HeaderLength(input[pos..pos + HEADER]), |input| - pos - HEADER)
    ensures Decode(ks, input[pos..]) ==
      Xor(ks, input[pos + HEADER..pos + HEADER + n]) + Decode(ks, input[pos + HEADER + n..])
  {
    var s := input[pos..];
    assert s[..HEADER] == input[pos..pos + HEADER] by { DropTwice(input, pos, HEADER); }
    assert s[HEADER + n..] == input[pos + HEADER + n..] by { DropTwice(input, pos, HEADER + n); }
    SliceOfDrop(input, pos, HEADER, HEADER + n);
    DecodeFirst(ks, s, n);
  }

  lemma ReadEntry(ks: Keystream, input: seq<Byte>, pos: nat, n: nat, output: seq<Byte>)
    requires pos + HEADER <= |input| && ValidHeader(input[pos..pos + HEADER]) && DecodedTo(ks, input, pos, output)
    requires n == Min(HeaderLength(input[pos..pos + HEADER]), |input| - pos - HEADER)
    ensures DecodedTo(ks, input, pos + HEADER + n, output + Xor(ks, input[pos + HEADER..pos + HEADER + n]))
  {
    DecodeFirstAt(ks, input, pos, n);
    Assoc(output, Xor(ks, input[pos + HEADER..pos + HEADER + n]), Decode(ks, input[pos + HEADER + n..]));
  }

  // ----- the output by position

  /** An entry that the reader comes to, with as much of its payload as there is. */
  datatype Found = Found(pos: nat, len: nat)

  function Scan(s: seq<Byte>, pos: nat): seq<Found>
    requires pos <= |s|
    decreases |s| - pos
  {
    if pos + HEADER > |s| then []
    else if !ValidHeader(s[pos..pos + HEADER]) then Scan(s, pos + 1)
    else
      var n := Min(s[pos + 3] as int * 256 + s[pos + 4] as int, |s| - pos - HEADER);
      [Found(pos, n)] + Scan(s, pos + HEADER + n)
  }

  /** The length of the first k payloads. */
  function Before(found: seq<Found>, k: nat): nat
    requires k <= |found|
  {
    if k == 0 then 0 else found[0].len + Before(found[1..], k - 1)
  }

  /** Each payload byte is XORed with the keystream byte of its place in its own
      entry, and nothing else is written. */
  ghost predicate ByPosition(ks: Keystream, s: seq<Byte>, found: seq<Found>, output: seq<Byte>) {
    && |output| == Before(found, |found|)
    && forall k: nat, i: nat :: k < |found| && i < found[k].len ==> ByteAt(ks, s, found, output, k, i)
  }

  ghost predicate ByteAt(ks: Keystream, s: seq<Byte>, found: seq<Found>, output: seq<Byte>, k: nat, i: nat)
    requires k < |found|
  {
    && found[k].pos + HEADER + i < |s| && Before(found, k) + i < |output|
    && output[Before(found, k) + i] == XorByte(s[found[k].pos + HEADER + i], ks(i))
  }

  lemma OneMore(ks: Keystream, s: seq<Byte>, pos: nat, n: nat, rest: seq<Found>, output: seq<Byte>)
    requires pos + HEADER + n <= |s| && ByPosition(ks, s, rest, output)
    ensures ByPosition(ks, s, [Found(pos, n)] + rest, Xor(ks, s[pos + HEADER..pos + HEADER + n]) + output)
  {
    var found := [Found(pos, n)] + rest;
    var first := Xor(ks, s[pos + HEADER..pos + HEADER + n]);
    assert found[1..] == rest;
    assert Before(found, |found|) == n + Before(rest, |rest|);
    forall k: nat, i: nat | k < |found| && i < found[k].len ensures ByteAt(ks, s, found, first + output, k, i) {
      if k > 0 {
        assert found[k] == rest[k - 1] && Before(found, k) == n + Before(rest, k - 1);
        assert ByteAt(ks, s, rest, output, k - 1, i);
      }
    }
  }

  lemma {:induction false} DecodeByPosition(ks: Keystream, s: seq<Byte>, pos: nat)
    requires pos <= |s|
    ensures ByPosition(ks, s, Scan(s, pos), Decode(ks, s[pos..]))
    decreases |s| - pos
  {
    if pos + HEADER <= |s| {
      if ValidHeader(s[pos..pos + HEADER]) {
        var n := ScanFirst(s, pos);
        DecodeByPosition(ks, s, pos + HEADER + n);
        OneMore(ks, s, pos, n, Scan(s, pos + HEADER + n), Decode(ks, s[pos + HEADER + n..]));
        DecodeFirstAt(ks, s, pos, n);
      } else {
        DecodeSkips(ks, s, pos);
        DecodeByPosition(ks, s, pos + 1);
      }
    }
  }

  lemma ScanFirst(s: seq<Byte>, pos: nat) returns (n: nat)
    requires pos + HEADER <= |s| && ValidHeader(s[pos..pos + HEADER])
    ensures n == Min(HeaderLength(s[pos..pos + HEADER]), |s| - pos - HEADER) && pos + HEADER + n <= |s|
    ensures Scan(s, pos) == [Found(pos, n)] + Scan(s, pos + HEADER + n)
  {
    n := Min(s[pos + 3] as int * 256 + s[pos + 4] as int, |s| - pos - HEADER);
  }

  lemma DecodeSkips(ks: Keystream, s: seq<Byte>, pos: nat)
    requires pos + HEADER <= |s| && !ValidHeader(s[pos..pos + HEADER])
    ensures Decode(ks, s[pos..]) == Decode(ks, s[pos + 1..])
  {
    DropTwice(s, pos, HEADER);
    DropTwice(s, pos, 1);
  }

  lemma XorNothing(ks: Keystream, output: seq<Byte>)
    ensures output + Xor(ks, []) == output
  {
  }

  /** The payload of the entry whose header ends at pos. */
  method DecryptEntry(ks: Keystream, input: seq<Byte>, ghost start: nat, pos: nat, dataLen: nat, before: seq<Byte>,
                      totalBefore: nat)
    returns (end: nat, output: seq<Byte>, total: nat)
    requires pos == start + HEADER <= |input| && ValidHeader(input[start..start + HEADER])
    requires dataLen == HeaderLength(input[start..start + HEADER])
    requires DecodedTo(ks, input, start, before) && totalBefore == |before|
    ensures pos <= end <= |input| && DecodedTo(ks, input, end, output) && total == |output|
  {
    output, total := before, totalBefore;
    end := ReadEnd(input, pos, dataLen);
    var logData := input[pos..end];
    ReadEntry(ks, input, start, end - pos, before);
    if logData != [] {
      var decrypted := Xor(ks, logData);
      output := output + decrypted;
      total := total + |decrypted|;
    } else {
      XorNothing(ks, output);
    }
  }

  /** The read and resynchronise loop over the position of the input file. */
  method DecryptLogFile(ks: Keystream, input: seq<Byte>) returns (output: seq<Byte>, total: nat)
    ensures output == Decode(ks, input)
    ensures ByPosition(ks, input, Scan(input, 0), output)
    ensures total == |output|
  {
    output, total := [], 0;
    var pos := 0;
    DecodedNothing(ks, input);
    while true
      invariant pos <= |input| && total == |output|
      invariant DecodedTo(ks, input, pos, output)
      decreases |input| - pos
    {
      ghost var start := pos;
      var end := ReadEnd(input, pos, 5);
      var header := input[pos..end];
      if |header| < 5 {
        DecodedAll(ks, input, pos, output);
        break;
      }
      pos := end;
      var valid, dataLen := ParseLogHeader(header);
      if !valid {
        pos := pos - 4;
        assert pos == start + 1;
        SkipByte(ks, input, start, output);
        continue;
      }
      pos, output, total := DecryptEntry(ks, input, start, pos, dataLen, output, total);
    }
    DecodeByPosition(ks, input, 0);
    assert input[0..] == input;
  }

  // ----- reading back what was written

  lemma XorTwice(ks: Keystream, p: seq<Byte>)
    ensures Xor(ks, Xor(ks, p)) == p
  {
    EightBits();
    forall i | 0 <= i < |p| ensures XorByte(XorByte(p[i], ks(i)), ks(i)) == p[i] {
      BitXorTwice(p[i], ks(i), 8);
    }
  }

  lemma DecodeEntry(ks: Keystream, p: seq<Byte>, rest: seq<Byte>)
    requires |p| < 65536
    ensures Decode(ks, Encode(ks, p) + rest) == p + Decode(ks, rest)
  {
    var s := Encode(ks, p) + rest;
    HeaderRoundTrip(|p|);
    XorTwice(ks, p);
    assert s[..HEADER] == Header(|p|);
    assert s[HEADER..HEADER + |p|] == Xor(ks, p);
    assert s[HEADER + |p|..] == rest;
    DecodeFirst(ks, s, |p|);
  }

  /** No position inside noise parses as a header, looking on into what follows. */
  ghost predicate Quiet(noise: seq<Byte>, rest: seq<Byte>) {
    forall i :: 0 <= i < |noise| ==> !HeaderAt(noise + rest, i)
  }

  lemma {:induction false} DecodeNoise(ks: Keystream, noise: seq<Byte>, rest: seq<Byte>)
    requires Quiet(noise, rest)
    ensures Decode(ks, noise + rest) == Decode(ks, rest)
  {
    var s := noise + rest;
    if noise == [] {
      assert s == rest;
    } else {
      assert s[1..] == noise[1..] + rest;
      forall i | 0 <= i < |noise[1..]| ensures !HeaderAt(noise[1..] + rest, i) {
        assert !HeaderAt(s, i + 1);
        if i + 1 + HEADER <= |s| {
          assert s[i + 1..i + 1 + HEADER] == s[1..][i..i + HEADER];
        }
      }
      DecodeNoise(ks, noise[1..], rest);
      assert !HeaderAt(s, 0);
      assert |s| >= HEADER ==> s[0..HEADER] == s[..HEADER];
    }
  }

  /** A log file with damaged or foreign stretches between its entries. */
  datatype Chunk = Entry(payload: seq<Byte>) | Noise(bytes: seq<Byte>)

  function Stream(ks: Keystream, chunks: seq<Chunk>): seq<Byte> {
    if chunks == [] then []
    else (match chunks[0] case Entry(p) => Encode(ks, p) case Noise(b) => b) + Stream(ks, chunks[1..])
  }

  function Plain(chunks: seq<Chunk>): seq<Byte> {
    if chunks == [] then []
    else (match chunks[0] case Entry(p) => p case Noise(_) => []) + Plain(chunks[1..])
  }

  ghost predicate Readable(ks: Keystream, chunks: seq<Chunk>) {
    chunks != [] ==>
      && (match chunks[0]
          case Entry(p) => |p| < 65536
          case Noise(b) => Quiet(b, Stream(ks, chunks[1..])))
      && Readable(ks, chunks[1..])
  }

  /** Every entry is recovered, in order and whole, whatever noise lies between. */
  lemma {:induction false} DecodeStream(ks: Keystream, chunks: seq<Chunk>)
    requires Readable(ks, chunks)
    ensures Decode(ks, Stream(ks, chunks)) == Plain(chunks)
  {
    if chunks != [] {
      DecodeStream(ks, chunks[1..]);
      match chunks[0]
      case Entry(p) => DecodeEntry(ks, p, Stream(ks, chunks[1..]));
      case Noise(b) => DecodeNoise(ks, b, Stream(ks, chunks[1..]));
    }
  }

  /** Five bytes of every entry are spent on its header. */
  lemma {:induction false} DecodeShortens(ks: Keystream, s: seq<Byte>)
    ensures |Decode(ks, s)| <= |s|
    ensures |Decode(ks, s)| == |s| ==> s == []
    decreases |s|
  {
    if |s| >= HEADER {
      if !ValidHeader(s[..HEADER]) {
        DecodeShortens(ks, s[1..]);
      } else {
        DecodeShortens(ks, s[HEADER + Min(HeaderLength(s[..HEADER]), |s| - HEADER)..]);
      }
    }
  }

  /** The writer does not check the length, and the two length bytes wrap: an
      entry reads back as written exactly when it is shorter than 65536 bytes. */
  lemma EntryRoundTripIffShort(ks: Keystream, p: seq<Byte>)
    ensures Decode(ks, Encode(ks, p)) == p <==> |p| < 65536
  {
    var s := Encode(ks, p);
    if |p| < 65536 {
      DecodeEntry(ks, p, []);
      assert s + [] == s;
    } else {
      HeaderRoundTrip(|p|);
      var n := |p| % 65536;
      assert s[..HEADER] == Header(|p|);
      DecodeShortens(ks, s[HEADER + n..]);
      assert |Decode(ks, s)| < |p|;
    }
  }

  // ----- truncated files

  lemma XorPrefix(ks: Keystream, t: seq<Byte>, s: seq<Byte>)
    requires t <= s
    ensures Xor(ks, t) <= Xor(ks, s)
  {
  }

  /** The case of a cut inside the payload of the first entry. */
  lemma {:induction false} DecodeCutPayload(ks: Keystream, s: seq<Byte>, n: nat, cut: nat)
    requires |s| >= HEADER && ValidHeader(s[..HEADER]) && n == Min(HeaderLength(s[..HEADER]), |s| - HEADER)
    requires HEADER <= cut < HEADER + n
    ensures Decode(ks, s[..cut]) <= Decode(ks, s)
  {
    var t := s[..cut];
    assert t[..HEADER] == s[..HEADER];
    DecodeFirst(ks, s, n);
    DecodeFirst(ks, t, cut - HEADER);
    XorPrefix(ks, t[HEADER..cut], s[HEADER..HEADER + n]);
  }

  /** The case of a cut behind the first entry. */
  lemma {:induction false} DecodeCutLater(ks: Keystream, s: seq<Byte>, n: nat, cut: nat)
    requires |s| >= HEADER && ValidHeader(s[..HEADER]) && n == Min(HeaderLength(s[..HEADER]), |s| - HEADER)
    requires HEADER + n <= cut <= |s|
    requires Decode(ks, s[HEADER + n..][..cut - HEADER - n]) <= Decode(ks, s[HEADER + n..])
    ensures Decode(ks, s[..cut]) <= Decode(ks, s)
  {
    var p, rest := s[HEADER..HEADER + n], s[HEADER + n..];
    assert Decode(ks, s) == Xor(ks, p) + Decode(ks, rest) by {
      DecodeFirst(ks, s, n);
    }
    assert Decode(ks, s[..cut]) == Xor(ks, p) + Decode(ks, rest[..cut - HEADER - n]) by {
      PrefixSlices(s, cut, HEADER, HEADER + n);
      DecodeFirst(ks, s[..cut], n);
    }
  }

  /** Cutting the input anywhere, even inside a header or a payload, cuts the
      output: nothing already recovered changes when the rest arrives. */
  lemma {:induction false} DecodePrefix(ks: Keystream, s: seq<Byte>, cut: nat)
    requires cut <= |s|
    ensures Decode(ks, s[..cut]) <= Decode(ks, s)
    decreases |s|
  {
    if cut >= HEADER {
      if !ValidHeader(s[..HEADER]) {
        assert s[..cut][..HEADER] == s[..HEADER];
        assert s[..cut][1..] == s[1..][..cut - 1];
        DecodePrefix(ks, s[1..], cut - 1);
      } else {
        var n := Min(HeaderLength(s[..HEADER]), |s| - HEADER);
        if cut < HEADER + n {
          DecodeCutPayload(ks, s, n, cut);
        } else {
          DecodePrefix(ks, s[HEADER + n..], cut - HEADER - n);
          DecodeCutLater(ks, s, n, cut);
        }
      }
    }
  }
}
