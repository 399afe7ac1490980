/** The virtio-net header: segmentation and checksum work left to somebody else. */
module Offloads {
  import opened Words
  import opened Bytes

  datatype Offload = Offload(
    flags: u8, gsoType: u8, hdrLen: u16, gsoSize: u16, csumStart: u16, csumOff: u16)
  {
    /** OffloadNeedsCsum is the lowest flag bit. */
    predicate NeedsCsum() { Bit(flags, 0) }

    /** Any segmentation type but none, the ECN bit aside. */
    predicate Segmented() { AndNot(gsoType, 0x80) != 0 }
  }

  const HDR_LEN: nat := 10

  const NONE: Offload := Offload(0, 0, 0, 0, 0, 0)

  function LE16(s: bytes, at: nat): u16
    requires at + 2 <= |s|
  {
    var lo: int, hi: int := s[at], s[at + 1];
    lo + 256 * hi
  }

  function Marshal(o: Offload): (s: bytes)
    ensures |s| == HDR_LEN
  {
    [o.flags, o.gsoType, o.hdrLen % 256, o.hdrLen / 256, o.gsoSize % 256, o.gsoSize / 256,
     o.csumStart % 256, o.csumStart / 256, o.csumOff % 256, o.csumOff / 256]
  }

  function Unmarshal(s: bytes): Offload
    requires |s| == HDR_LEN
  {
    Offload(s[0], s[1], LE16(s, 2), LE16(s, 4), LE16(s, 6), LE16(s, 8))
  }

  /** The ten bytes of a virtio header, field by field: section 5.1.6 of the virtio standard, version 1.1. */
  predicate IsHeader(s: bytes, o: Offload) {
    && |s| == 10 && s[0] == o.flags && s[1] == o.gsoType && LE16(s, 2) == o.hdrLen && LE16(s, 4) == o.gsoSize
    && LE16(s, 6) == o.csumStart && LE16(s, 8) == o.csumOff
  }

  /** Writing and reading are of such headers. */
  lemma {:induction false} HeaderIff(s: bytes, o: Offload)
    ensures IsHeader(s, o) <==> s == Marshal(o)
    ensures |s| == 10 ==> (IsHeader(s, o) <==> Unmarshal(s) == o)
  {
    MarshalRoundTrip(o);
  }

  lemma {:induction false} Split16(v: u16)
    ensures v % 256 + 256 * (v / 256) == v
  {
  }

  lemma {:induction false} MarshalRoundTrip(o: Offload)
    ensures Unmarshal(Marshal(o)) == o
  {
    Split16(o.hdrLen);
    Split16(o.gsoSize);
    Split16(o.csumStart);
    Split16(o.csumOff);
  }

  /** Moves an offset past a reinserted tag, saturating rather than wrapping. */
  function Shift(v: u16, tagLen: nat): (r: u16)
    ensures r == Min(v + tagLen, 0xffff)
  {
    if v + tagLen > 0xffff then 0xffff else v + tagLen
  }

  /** The metadata of a packet whose tag was put back. */
  function Shifted(o: Offload, tagLen: nat): Offload {
    if tagLen == 0 then o
    else
      var o1 := if o.NeedsCsum() then o.(csumStart := Shift(o.csumStart, tagLen)) else o;
      if o1.hdrLen != 0 then o1.(hdrLen := Shift(o1.hdrLen, tagLen)) else o1
  }

  /** Clearing the top bit of what fits below twice it. */
  lemma {:induction false} TopCleared(a: nat, k: nat)
    requires a < 2 * Pow2(k)
    ensures AndNot(a, Pow2(k)) == if a >= Pow2(k) then a - Pow2(k) else a
  {
    if a > 0 && k == 0 {
      assert AndNot(0, 0) == 0;
    } else if a > 0 {
      TopCleared(a / 2, k - 1);
      assert Pow2(k) == 2 * Pow2(k - 1);
    }
  }

  lemma {:induction false} SegmentedMeans(o: Offload)
    ensures o.Segmented() <==> o.gsoType != 0 && o.gsoType != 0x80
    ensures o.NeedsCsum() <==> o.flags % 2 == 1
  {
    assert Pow2(7) == 0x80;
    hide AndNot, Pow2;
    TopCleared(o.gsoType, 7);
  }
}
