/** Splitting a message into packets and joining the packets again. */
module NocPayload {
  import opened Arith
  import opened NocState
  import opened NocInvariant

  /** Without 32-bit wrap-around, a message gets the least number of packets that covers it, and at least one. */
  lemma PacketCountExact(size: nat, width: nat)
    requires width > 0 && SizeFits(size, width)
    ensures var cnt := PacketCount(size, width);
            cnt >= 1 && (cnt - 1) * width < (if size == 0 then 1 else size) <= cnt * width
  {
    hide PacketCount;
    var v := if size == 0 then 1 else size;
    var sum := v + width - 1;
    PacketCountIs(size, width);
    var k := sum / width;
    assert sum == k * width + sum % width && 0 <= sum % width < width;
    assert (k - 1) * width == k * width - width;
    if k <= 0 {
      MulMonotone(k, 0, width);
    }
  }

  lemma PacketCountIs(size: nat, width: nat)
    requires width > 0 && SizeFits(size, width)
    ensures PacketCount(size, width) == ((if size == 0 then 1 else size) + width - 1) / width
  {
    var v := if size == 0 then 1 else size;
    NoWrap(v);
    NoWrap(v + width - 1);
    CutToMultiple(v + width - 1, width);
  }

  lemma CutToMultiple(sum: nat, width: nat)
    requires 0 < width
    ensures (sum - sum % width) / width == sum / width
  {
    var k := sum / width;
    DivModFacts(sum, width);
    DivUnique(k * width, width, k);
  }

  // ----- Joining -----

  /** `data`, cut or extended with zeros to `n` bytes. */
  function Padded(data: seq<byte>, n: nat): seq<byte> {
    seq(n, j requires 0 <= j < n => if j < |data| then data[j] else 0 as byte)
  }

  lemma PaddedChunk(data: seq<byte>, width: nat, i: nat)
    ensures i * width >= 0 && (i + 1) * width >= 0
    ensures Padded(data, (i + 1) * width) == Padded(data, i * width) + Chunk(data, width, i)
  {
    MulMonotone(0, i, width);
    assert (i + 1) * width == i * width + width;
    var a, b, c := Padded(data, (i + 1) * width), Padded(data, i * width), Chunk(data, width, i);
    assert |a| == |b| + |c|;
    forall j | 0 <= j < |a| ensures a[j] == (b + c)[j] {
      if j >= |b| {
        assert (b + c)[j] == c[j - |b|];
      }
    }
  }

  /** The first `k` packets of a message carry its first `k * width` bytes, zero-padded. */
  lemma {:induction false} PayloadIs(T: Topology, m: Message, x: nat, k: nat)
    requires m.cha < T.Channels() && T.widths[m.cha] > 0 && k <= |Packetize(T, m, x)|
    ensures k * T.widths[m.cha] >= 0
    ensures Payload(Packetize(T, m, x)[..k]) == Padded(m.data, k * T.widths[m.cha])
    decreases k
  {
    var width, packs := T.widths[m.cha], Packetize(T, m, x);
    if k == 0 {
      assert Padded(m.data, 0 * width) == [];
    } else {
      PayloadIs(T, m, x, k - 1);
      PaddedChunk(m.data, width, k - 1);
      assert packs[..k][..k - 1] == packs[..k - 1] && packs[..k][k - 1] == packs[k - 1];
    }
  }

  /** What `recv` makes of the packets of one message. */
  function Rejoin(packs: seq<Packet>): seq<byte>
    requires packs != []
  {
    Resize(Payload(packs), packs[0].len)
  }

  /**
   Joining the packets of a message and cutting at its recorded length gives back its bytes, padding and
   empty messages included, exactly when its length and padding do not wrap around 32 bits. A longer message
   gets no packet at all, or a recorded length that is not its own.
   */
  lemma RejoinsIff(T: Topology, m: Message, x: nat)
    requires m.cha < T.Channels() && 0 < T.widths[m.cha] <= MAX_WIDTH
    ensures (Packetize(T, m, x) != [] && Rejoin(Packetize(T, m, x)) == m.data) <==> SizeFits(|m.data|, T.widths[m.cha])
  {
    hide Payload, PacketCount;
    var width, packs := T.widths[m.cha], Packetize(T, m, x);
    if SizeFits(|m.data|, width) {
      PayloadIs(T, m, x, |packs|);
      assert packs[..|packs|] == packs;
      PacketCountExact(|m.data|, width);
      NoWrap(|m.data|);
      assert Padded(m.data, |packs| * width)[..|m.data|] == m.data;
    } else if |m.data| < WORD32 {
      NoPackets(|m.data|, width);
    } else if packs != [] {
      assert |Rejoin(packs)| == |m.data| % WORD32;
      assert |m.data| % WORD32 < WORD32;
    }
  }

  lemma NoPackets(size: nat, width: nat)
    requires size < WORD32 && 0 < width <= MAX_WIDTH && !SizeFits(size, width)
    ensures PacketCount(size, width) == 0
  {
    var sum := size + width - 1;
    NoWrap(size);
    DivUnique(sum, WORD32, 1);
    DivUnique(sum - WORD32, width, 0);
    DivUnique(0, width, 0);
  }

  /** The shortest messages that wrap make no packets: from just below 2^32 bytes up to exactly that many. */
  lemma WrapsToNothing(T: Topology, m: Message, x: nat)
    requires m.cha < T.Channels() && 0 < T.widths[m.cha] <= MAX_WIDTH
    requires !SizeFits(|m.data|, T.widths[m.cha]) && |m.data| <= WORD32
    ensures Packetize(T, m, x) == [] && PacketCount(|m.data|, T.widths[m.cha]) == 0
  {
    var width := T.widths[m.cha];
    if |m.data| < WORD32 {
      NoPackets(|m.data|, width);
    } else {
      DivUnique(WORD32, WORD32, 1);
      DivUnique(width - 1, WORD32, 0);
      DivUnique(width - 1, width, 0);
      DivUnique(0, width, 0);
    }
  }
}
