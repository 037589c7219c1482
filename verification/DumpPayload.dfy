/** The footer of a DUMP payload: what is built is accepted, and what was changed in one place is not. */
module DumpPayload {
  import opened Crc64
  import opened MachineWord

  const RDB_VERSION: bv16 := 7

  function Body(obj: seq<bv8>): seq<bv8> { obj + [(RDB_VERSION & 0xFF) as bv8, ((RDB_VERSION >> 8) & 0xFF) as bv8] }

  function Payload(obj: seq<bv8>): seq<bv8> { Body(obj) + BytesOf(Crc(0, Body(obj)), 8) }

  function Version(footer: seq<bv8>): bv16
    requires |footer| >= 2
  {
    ((footer[1] as bv16) << 8) | (footer[0] as bv16)
  }

  /** A payload is accepted when its version is not too new and its CRC, taken over checksum and all, is zero. */
  predicate Accepted(p: seq<bv8>) { |p| >= 10 && Version(p[|p| - 10..]) <= RDB_VERSION && Crc(0, p) == 0 }

  /** Comparing the checksum with the stored one is asking whether the CRC of the whole is zero. */
  lemma ZeroResidue(c: bv64, stored: seq<bv8>)
    requires |stored| == 8
    ensures Crc(c, stored) == 0 <==> stored == BytesOf(c, 8)
  {
    hide Xor, Word, Crc, Repeat, Fits, BytesOf;
    AllFit(c);
    WordOfBytes(c, 8);
    CrcOfWord(c, stored);
    RepeatZero(8, Xor(c, Word(stored)));
    XorZero(c, Word(stored));
    if c == Word(stored) { WordInjective(stored, BytesOf(c, 8)); }
  }

  /** createDumpPayload; the object's own bytes are given. */
  method CreateDumpPayload(obj: seq<bv8>) returns (payload: seq<bv8>)
    ensures payload == Payload(obj)
  {
    hide Crc;
    payload := obj + [(RDB_VERSION & 0xFF) as bv8, ((RDB_VERSION >> 8) & 0xFF) as bv8];
    var crc := ComputeCrc64(0, payload);
    payload := payload + BytesOf(crc, 8);
  }

  /** verifyDumpPayload. */
  method VerifyDumpPayload(p: seq<bv8>) returns (ok: bool)
    ensures ok == Accepted(p)
  {
    hide Crc, BytesOf;
    if |p| < 10 { return false; }
    var footer := p[|p| - 10..];
    if Version(footer) > RDB_VERSION { return false; }
    var n := |p| - 8;
    var crc := ComputeCrc64(0, p[..n]);
    assert p == p[..n] + p[n..];
    CrcChains(0, p[..n], p[n..]);
    ZeroResidue(crc, p[n..]);
    assert footer[2..] == p[n..];
    return footer[2..] == BytesOf(crc, 8);
  }

  /** Every payload built is accepted. */
  lemma BuiltIsAccepted(obj: seq<bv8>)
    ensures Accepted(Payload(obj))
  {
    hide Crc, BytesOf;
    var body := Body(obj);
    var sum := BytesOf(Crc(0, body), 8);
    CrcChains(0, body, sum);
    ZeroResidue(Crc(0, body), sum);
    assert Payload(obj)[|Payload(obj)| - 10..] == [7, 0] + sum;
  }

  /** A payload that differs from an accepted one only within eight consecutive bytes, wherever they are, is rejected. */
  lemma ChangeIsRejected(a: seq<bv8>, b: seq<bv8>, at: nat)
    requires Accepted(a) && |b| == |a| && a != b
    requires at + 8 <= |a| && a[..at] == b[..at] && a[at + 8..] == b[at + 8..]
    ensures !Accepted(b)
  {
    hide Crc;
    BurstDetected(0, a, b, at);
  }

  /** In particular one changed byte is noticed. */
  lemma ByteChangeIsRejected(a: seq<bv8>, i: nat, x: bv8)
    requires Accepted(a) && i < |a| && a[i] != x
    ensures !Accepted(a[i := x])
  {
    hide Crc;
    var at := if i + 8 <= |a| then i else |a| - 8;
    assert a[i := x][i] != a[i];
    ChangeIsRejected(a, a[i := x], at);
  }
}
