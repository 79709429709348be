/**
 * The payload repair in `SupabaseS3Store.__getitem__` (s3dol/store.py):
 * a body that still starts with one frame of HTTP/1.1 chunked transfer
 * coding (section 7.1 of RFC 9112: `<hex-size> CRLF <data> CRLF ...`) is
 * cut down to the bytes between its first two CRLFs. It is a heuristic on
 * the leading bytes, not a chunked decoder.
 */
module PayloadRepair {
  import opened Wrappers
  import opened Sequences
  import opened Backend

  const CR: byte := 13
  const LF: byte := 10
  const CRLF: Bytes := [CR, LF]
  const Zero: byte := 48
  /** `b'abcdef'` */
  const HexLetters: Bytes := [97, 98, 99, 100, 101, 102]

  predicate IsDigit(b: byte) { 48 <= b <= 57 }
  predicate IsAlpha(b: byte) { 65 <= b <= 90 || 97 <= b <= 122 }

  /** ASCII lower-casing of one byte, as `bytes.lower` does. */
  function Lower(b: byte): byte { if 65 <= b <= 90 then b + 32 else b }

  /** `bytes.isdigit()`: non-empty and ASCII digits only. */
  predicate AllDigits(s: Bytes) { |s| > 0 && forall i :: 0 <= i < |s| ==> IsDigit(s[i]) }

  /** `bytes.isalpha()`: non-empty and ASCII letters only. */
  predicate AllAlpha(s: Bytes) { |s| > 0 && forall i :: 0 <= i < |s| ==> IsAlpha(s[i]) }

  function LowerAll(s: Bytes): (r: Bytes)
    ensures |r| == |s| && forall i :: 0 <= i < |s| ==> r[i] == Lower(s[i])
  {
    if s == [] then [] else [Lower(s[0])] + LowerAll(s[1..])
  }

  /** Python's `s[lo:hi]` for 0 <= lo <= hi: the bounds are clipped to the length. */
  function Slice(s: Bytes, lo: nat, hi: nat): Bytes
    requires lo <= hi
  {
    s[Min(lo, |s|)..Min(hi, |s|)]
  }

  /** The test on the leading bytes, clause by clause as store.py writes it. */
  predicate LooksChunked(raw: Bytes)
  {
    || StartsWith(raw, [Zero])
    || AllDigits(Slice(raw, 0, 2))
    || (AllDigits(Slice(raw, 0, 1)) && AllAlpha(Slice(raw, 1, 2)) &&
        HasSubstring(HexLetters, LowerAll(Slice(raw, 1, 2))))
  }

  predicate IsHexLetter(b: byte) { 97 <= Lower(b) <= 102 }

  /**
   * What the leading-bytes test accepts: a first byte '0'; a lone digit;
   * two digits; or a digit followed by a letter a-f in either case. A digit
   * followed by anything else (CR included) is refused.
   */
  lemma LooksChunkedMeaning(raw: Bytes)
    ensures LooksChunked(raw) <==>
              |raw| > 0 &&
              (raw[0] == Zero ||
               (IsDigit(raw[0]) && (|raw| == 1 || IsDigit(raw[1]) || IsHexLetter(raw[1]))))
  {
    if |raw| >= 2 {
      var second := Slice(raw, 1, 2);
      assert second == [raw[1]];
      assert LowerAll(second) == [Lower(raw[1])];
      SingleSubstring(HexLetters, Lower(raw[1]));
      assert Lower(raw[1]) in HexLetters <==> 97 <= Lower(raw[1]) <= 102;
      assert Slice(raw, 0, 2) == [raw[0], raw[1]];
      assert Slice(raw, 0, 1) == [raw[0]];
      if IsHexLetter(raw[1]) {
        assert IsAlpha(raw[1]);
      }
    } else if |raw| == 1 {
      assert Slice(raw, 0, 2) == [raw[0]];
      assert Slice(raw, 1, 2) == [];
    }
  }

  predicate CRLFAt(s: Bytes, i: int)
  {
    0 <= i && i + 1 < |s| && s[i] == CR && s[i + 1] == LF
  }

  predicate NoCRLF(s: Bytes)
  {
    forall i :: 0 <= i < |s| ==> !CRLFAt(s, i)
  }

  /** `s.find(b'\r\n', from)`: the first CRLF starting at or after `from`, if any. */
  function FindCRLF(s: Bytes, from: nat): (r: Option<nat>)
    decreases |s| - from
    ensures r.Some? ==> from <= r.value && CRLFAt(s, r.value)
    ensures r.Some? ==> forall j :: from <= j < r.value ==> !CRLFAt(s, j)
    ensures r.None? ==> forall j :: from <= j < |s| ==> !CRLFAt(s, j)
  {
    if from + 1 >= |s| then None
    else if s[from] == CR && s[from + 1] == LF then Some(from)
    else FindCRLF(s, from + 1)
  }

  /**
   * The repair: when the leading bytes look like a chunk-size line and two
   * CRLFs follow, the bytes between the first CRLF and the next one;
   * otherwise the input unchanged. A changed result holds no CRLF and is at
   * least four bytes shorter.
   */
  function Repair(raw: Bytes): (r: Bytes)
    ensures !LooksChunked(raw) ==> r == raw
    ensures FindCRLF(raw, 0).None? ==> r == raw
    ensures r != raw ==> NoCRLF(r) && |r| + 4 <= |raw|
  {
    if LooksChunked(raw) then
      match FindCRLF(raw, 0)
      case None => raw
      case Some(p) =>
        match FindCRLF(raw, p + 2)
        case None => raw
        case Some(q) =>
          var chunk := raw[p + 2..q];
          assert forall i :: CRLFAt(chunk, i) ==> CRLFAt(raw, p + 2 + i);
          chunk
    else raw
  }

  /** Without a second CRLF after the first one, the input comes back unchanged. */
  lemma RepairNeedsSecondCRLF(raw: Bytes, p: nat)
    requires FindCRLF(raw, 0) == Some(p) && FindCRLF(raw, p + 2).None?
    ensures Repair(raw) == raw
  {
  }

  /**
   * The cut, by position: with `p` the first CRLF and `q` the first CRLF at
   * or after `p + 2`, the repair gives `raw[p + 2 .. q]`.
   */
  lemma RepairExtracts(raw: Bytes, p: nat, q: nat)
    requires LooksChunked(raw)
    requires CRLFAt(raw, p) && forall j :: 0 <= j < p ==> !CRLFAt(raw, j)
    requires p + 2 <= q && CRLFAt(raw, q) && forall j :: p + 2 <= j < q ==> !CRLFAt(raw, j)
    ensures Repair(raw) == raw[p + 2..q]
  {
    FirstCRLF(raw, 0, p);
    FirstCRLF(raw, p + 2, q);
  }

  lemma {:induction false} FirstCRLF(s: Bytes, from: nat, p: nat)
    requires from <= p && CRLFAt(s, p) && forall j :: from <= j < p ==> !CRLFAt(s, j)
    ensures FindCRLF(s, from) == Some(p)
    decreases p - from
  {
    if from < p {
      assert !CRLFAt(s, from);
      FirstCRLF(s, from + 1, p);
    }
  }

  /** Repairing twice is repairing once. */
  lemma RepairIdempotent(raw: Bytes)
    ensures Repair(Repair(raw)) == Repair(raw)
  {
    var r := Repair(raw);
    if r != raw {
      assert FindCRLF(r, 0).None?;
    }
  }

  /**
   * One frame round trip: a size line and a payload without CRLF, framed
   * as `size CRLF data CRLF rest`, repair to the payload, provided the
   * framed bytes pass the leading-bytes test.
   */
  lemma RepairSingleChunk(size: Bytes, data: Bytes, rest: Bytes)
    requires NoCRLF(size) && NoCRLF(data)
    requires LooksChunked(size + CRLF + data + CRLF + rest)
    ensures Repair(size + CRLF + data + CRLF + rest) == data
  {
    var raw := size + CRLF + data + CRLF + rest;
    var p, q := |size|, |size| + 2 + |data|;
    assert CRLFAt(raw, p);
    assert CRLFAt(raw, q);
    forall j | 0 <= j < p ensures !CRLFAt(raw, j) {
      if j + 1 < p {
        assert !CRLFAt(size, j);
      } else {
        assert raw[j + 1] == CR;
      }
    }
    forall j | p + 2 <= j < q ensures !CRLFAt(raw, j) {
      var i := j - p - 2;
      if j + 1 < q {
        assert raw[j] == data[i] && raw[j + 1] == data[i + 1];
        assert !CRLFAt(data, i);
      } else {
        assert raw[j + 1] == CR;
      }
    }
    RepairExtracts(raw, p, q);
    assert raw[p + 2..q] == data;
  }

  /**
   * A size line of two or more bytes that starts with a digit followed by a
   * digit or a hex letter passes the test, so such a frame round-trips.
   */
  lemma RepairTwoByteSize(size: Bytes, data: Bytes, rest: Bytes)
    requires NoCRLF(size) && NoCRLF(data)
    requires |size| >= 2 && IsDigit(size[0]) && (IsDigit(size[1]) || IsHexLetter(size[1]))
    ensures Repair(size + CRLF + data + CRLF + rest) == data
  {
    var raw := size + CRLF + data + CRLF + rest;
    LooksChunkedMeaning(raw);
    assert raw[0] == size[0] && raw[1] == size[1];
    RepairSingleChunk(size, data, rest);
  }

  /**
   * A single-digit size line other than '0' is not repaired: the second
   * byte is CR, so `raw[0:2]` is not all digits and CR is not a letter.
   */
  lemma SingleDigitSizeNotRepaired(d: byte, data: Bytes, rest: Bytes)
    requires IsDigit(d) && d != Zero
    ensures Repair([d] + CRLF + data + CRLF + rest) == [d] + CRLF + data + CRLF + rest
  {
    var raw := [d] + CRLF + data + CRLF + rest;
    LooksChunkedMeaning(raw);
    assert raw[0] == d && raw[1] == CR;
  }
}
