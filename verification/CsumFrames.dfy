/**
 Frames as senders make them, and what finishing the checksum of one comes to: the sum runs
 over the IP packet's own bytes, past every tag and short of any padding.
 */
module CsumFrames {
  import opened Words
  import opened Bytes
  import opened Offloads
  import opened Checksum
  import opened Csum

  /** A tag: one of the five identifiers in use and two bytes more. */
  datatype Tag = Tag(tpid: u16, tci: u16)

  predicate IsTag(t: Tag) {
    t.tpid == 0x8100 || t.tpid == 0x88a8 || t.tpid == 0x9100 || t.tpid == 0x9200 || t.tpid == 0x9300
  }

  function TagBytes(tags: seq<Tag>): (b: bytes)
    ensures |b| == 4 * |tags|
  {
    if tags == [] then [] else ToBE16(tags[0].tpid) + ToBE16(tags[0].tci) + TagBytes(tags[1..])
  }

  /** An Ethernet frame around an IP packet: two addresses, tags, the type, the packet, padding. */
  datatype Made = Made(macs: bytes, tags: seq<Tag>, v6: bool, packet: bytes, pad: bytes) {
    /** The packet is as long as its header says, and padding only fills up to 46 bytes after the type. */
    ghost predicate Proper() {
      && |macs| == 12 && (forall i {:trigger tags[i]} :: 0 <= i < |tags| ==> IsTag(tags[i]))
      && (if v6 then |packet| >= 40 && |packet| == 40 + Length(4) else |packet| >= 20 && |packet| == Length(2))
      && (pad != [] ==> |packet| + |pad| <= 46)
    }

    /** The two bytes at `at` of the packet, high one first. */
    function Length(at: nat): nat
      requires at + 2 <= |packet|
    {
      var hi: int, lo: int := packet[at], packet[at + 1];
      256 * hi + lo
    }

    function Before(): bytes { macs + TagBytes(tags) + (if v6 then [0x86, 0xdd] else [0x08, 0x00]) }

    function Frame(): bytes { Before() + packet + pad }

    /** Where the packet begins. */
    function At(): nat { |macs| + 4 * |tags| + 2 }
  }

  /** The walk over the tags ends at the type. */
  lemma {:induction false} PastTags(pre: bytes, tags: seq<Tag>, rest: bytes)
    requires forall i {:trigger tags[i]} :: 0 <= i < |tags| ==> IsTag(tags[i])
    requires |rest| >= 2 && !IsTpid(BE16(rest, 0))
    ensures TypeAt(pre + TagBytes(tags) + rest, |pre|) == |pre| + 4 * |tags|
    decreases tags
  {
    var frame := pre + TagBytes(tags) + rest;
    if tags == [] {
      assert frame == pre + rest;
      assert BE16(frame, |pre|) == BE16(rest, 0);
    } else {
      var tag := ToBE16(tags[0].tpid) + ToBE16(tags[0].tci);
      assert frame == (pre + tag) + TagBytes(tags[1..]) + rest;
      assert BE16(frame, |pre|) == tags[0].tpid by {
        assert frame[|pre|] == ToBE16(tags[0].tpid)[0] && frame[|pre| + 1] == ToBE16(tags[0].tpid)[1];
      }
      assert IsTag(tags[0]);
      PastTags(pre + tag, tags[1..], rest);
    }
  }

  /** The sum ends where the IP packet does, whatever the tags and the padding. */
  lemma {:induction false} EndsWithPacket(m: Made, at: nat)
    requires m.Proper() && at + 2 <= m.At() + |m.packet|
    ensures |m.Frame()| == m.At() + |m.packet| + |m.pad|
    ensures SumEnd(m.Frame(), at) == m.At() + |m.packet|
  {
    var frame, hdr := m.Frame(), m.At();
    var rest := (if m.v6 then [0x86, 0xdd] else [0x08, 0x00]) + m.packet + m.pad;
    assert frame == m.macs + TagBytes(m.tags) + rest;
    assert BE16(rest, 0) == if m.v6 then 0x86dd else 0x0800;
    PastTags(m.macs, m.tags, rest);
    assert BE16(frame, hdr - 2) == BE16(rest, 0);
    assert frame[hdr..hdr + |m.packet|] == m.packet;
    HeaderField(frame, hdr, m, if m.v6 then 4 else 2);
  }

  lemma {:induction false} HeaderField(frame: bytes, hdr: nat, m: Made, k: nat)
    requires hdr + |m.packet| <= |frame| && frame[hdr..hdr + |m.packet|] == m.packet && k + 2 <= |m.packet|
    ensures BE16(frame, hdr + k) == m.Length(k)
  {
    assert frame[hdr + k] == m.packet[k] && frame[hdr + k + 1] == m.packet[k + 1];
  }

  /** The packet with a checksum in its field. */
  function Filled(packet: bytes, at: nat, c: u16): (r: bytes)
    requires at + 2 <= |packet|
    ensures |r| == |packet|
  {
    packet[..at] + ToBE16(c) + packet[at + 2..]
  }

  /**
   Finishing a frame: nothing changes but the two bytes of the field, and the segment from `l4` to the
   packet's end, with the partial that was there, then comes to all ones: always when the field
   is at an even offset, and at an odd one just when 257 divides the sum of the rest.
   */
  lemma {:induction false} FinishedFrame(m: Made, l4: nat, off: nat) returns (c: u16)
    requires m.Proper() && l4 + off + 2 <= |m.packet| && |m.packet| - l4 <= 131074
    ensures Fits(|m.Frame()|, m.At() + l4, off)
    ensures var packet := Filled(m.packet, l4 + off, c);
            && Completed(m.Frame(), m.At() + l4, off) == m.(packet := packet).Frame()
            && (Fold(Sum(packet[l4..]) + m.Length(l4 + off)) == 0xffff
                <==> off % 2 == 0 || Sum(Filled(m.packet, l4 + off, 0)[l4..]) % 257 == 0)
  {
    hide SumEnd, Sum, Fold, Range.Stored, Completed, Made.Frame, Made.Proper, Filled;
    var frame, start := m.Frame(), m.At() + l4;
    EndsWithPacket(m, start + off);
    c := Summed(frame, start, off).Stored();
    CompletedIs(m, l4, off, c);
    CompletedVerifies(frame, start, off);
    FieldIs(m, l4 + off);
    RestIs(m, frame, l4, off);
  }

  lemma {:induction false} CompletedIs(m: Made, l4: nat, off: nat, c: u16)
    requires l4 + off + 2 <= |m.packet| && Fits(|m.Frame()|, m.At() + l4, off)
    requires c == Summed(m.Frame(), m.At() + l4, off).Stored()
    ensures var now, packet := Completed(m.Frame(), m.At() + l4, off), Filled(m.packet, l4 + off, c);
            && now == m.(packet := packet).Frame() && m.At() + |m.packet| <= |now|
            && now[m.At() + l4..m.At() + |m.packet|] == packet[l4..]
  {
    hide SumEnd, Range.Stored, Splice, Filled;
    var packet := Filled(m.packet, l4 + off, c);
    Rewritten(m, l4 + off, c);
    SliceFrom(m.Before(), packet, m.pad, m.(packet := packet).Frame(), l4);
  }

  lemma {:induction false} FieldIs(m: Made, k: nat)
    requires k + 2 <= |m.packet| && m.At() + k + 2 <= |m.Frame()|
    ensures BE16(m.Frame(), m.At() + k) == m.Length(k)
  {
    assert m.Frame()[m.At()..m.At() + |m.packet|] == m.packet;
    HeaderField(m.Frame(), m.At(), m, k);
  }

  lemma {:induction false} Rewritten(m: Made, at: nat, c: u16)
    requires at + 2 <= |m.packet|
    ensures Splice(m.Frame(), m.At() + at, ToBE16(c)) == m.(packet := Filled(m.packet, at, c)).Frame()
  {
    assert m.At() == |m.Before()|;
  }

  lemma {:induction false} SliceFrom(pre: bytes, packet: bytes, pad: bytes, frame: bytes, l4: nat)
    requires frame == pre + packet + pad && l4 <= |packet|
    ensures frame[|pre| + l4..|pre| + |packet|] == packet[l4..]
  {
  }

  lemma {:induction false} RestIs(m: Made, frame: bytes, l4: nat, off: nat)
    requires frame == m.Frame() && Fits(|frame|, m.At() + l4, off) && l4 + off + 2 <= |m.packet|
    requires SumEnd(frame, m.At() + l4 + off) == m.At() + |m.packet|
    ensures Summed(frame, m.At() + l4, off).Rest() == Sum(Filled(m.packet, l4 + off, 0)[l4..])
  {
    hide SumEnd, Sum;
    var start, at, end := m.At() + l4, m.At() + l4 + off, m.At() + |m.packet|;
    assert frame[start..at] == m.packet[l4..l4 + off] && frame[at + 2..end] == m.packet[l4 + off + 2..];
    assert ToBE16(0) == [0, 0];
    assert Filled(m.packet, l4 + off, 0)[l4..] == frame[start..at] + [0, 0] + frame[at + 2..end];
  }

  /**
   So where the field held the folded sum of the pseudo header, as it does when the checksum was left
   to somebody else, pseudo header and finished segment together come to all ones, which is
   what the receiver asks of them.
   */
  lemma {:induction false} ReceiverAccepts(m: Made, l4: nat, off: nat, pseudo: bytes) returns (packet: bytes)
    requires m.Proper() && l4 + off + 2 <= |m.packet| && |m.packet| - l4 <= 131074 && off % 2 == 0
    requires |pseudo| % 2 == 0 && m.Length(l4 + off) == Fold(Sum(pseudo))
    ensures Fits(|m.Frame()|, m.At() + l4, off) && |packet| == |m.packet|
    ensures Completed(m.Frame(), m.At() + l4, off) == m.(packet := packet).Frame()
    ensures Fold(Sum(pseudo + packet[l4..])) == 0xffff
  {
    hide Sum, Fold, Completed;
    var c := FinishedFrame(m, l4, off);
    packet := Filled(m.packet, l4 + off, c);
    SumSplit(pseudo, packet[l4..]);
    FoldAdd(Sum(pseudo), Sum(packet[l4..]));
  }

  /** When a frame of a batch is finished, in terms of its virtio header; what happens to it otherwise. */
  lemma {:induction false} CompleteWhen(frame: bytes, o: Offload, chained: bool)
    ensures var f := Complete(frame, o, chained);
            var due := o.flags % 2 == 1 && (o.gsoType == 0 || o.gsoType == 0x80) && !chained;
            if due && o.csumStart + o.csumOff + 2 <= |frame| then
              f.off == o.(flags := o.flags - 1) && !f.bad && f.frame == Completed(frame, o.csumStart, o.csumOff)
            else f.off == o && f.bad == due && f.frame == frame
  {
    hide Completed;
    SegmentedMeans(o);
  }
}
