/** The vendor-specific experimenter action for GMPLS labels: converting it
    between its internal record (`struct ofl_action_tlab_experimenter_header`)
    and its wire layout (`struct ofp_action_tlab_experimenter_header`), its
    wire length, and its release callback.

    The two structures are modelled field by field; wire fields hold bytes in
    network order. The sub-type field is copied without byte swapping in both
    directions, so it is a plain 16-bit value on both sides. */
module TlabExperimenter {
  import opened ByteOrder
  import opened ActionErrors
  import ActionRelease

  /** `OFPXMT_TLAB_GMPLS_LABEL`, the one sub-type this vendor defines. */
  const OFPXMT_TLAB_GMPLS_LABEL: u16 := 1

  /** Number of 32-bit label words the structures carry. */
  const PAYLOAD_WORDS: nat := 4

  /** `sizeof(struct ofp_action_tlab_experimenter_header)`. */
  const TLAB_WIRE_SIZE: u16 := 32

  /** `offsetof(struct ofl_action_tlab_experimenter_header, payload)`. */
  const TLAB_PAYLOAD_OFFSET: nat := 16

  type Payload = s: seq<u32> | |s| == 4 witness [0, 0, 0, 0]
  const ZERO_WORD: Be32 := [0, 0, 0, 0]
  type WirePayload = s: seq<Be32> | |s| == 4 witness [ZERO_WORD, ZERO_WORD, ZERO_WORD, ZERO_WORD]

  /** The internal record. */
  datatype TlabAction = TlabAction(len: u16, experimenter: u32, action: u16, payload: Payload)

  /** The wire structure. */
  datatype WireTlab = WireTlab(len: Be16, experimenter: Be32, action: u16, payload: WirePayload)

  datatype PackResult = Packed(wire: WireTlab, size: nat) | PackFailed(error: ActionError)

  /** What unpacking leaves behind. On failure, `blockFreed` tells whether the
      record allocated at entry was given back. `PayloadOverrun` stands for
      the label loop indexing past the last payload word, which C leaves
      undefined. */
  datatype UnpackResult =
    | Unpacked(act: TlabAction, remaining: nat)
    | UnpackFailed(error: ActionError, blockFreed: bool)
    | PayloadOverrun

  // ---------------------------------------------------------------------
  // Pack

  /** The payload words in network order: `ntohl` reads each one back. */
  function HtonlPayload(p: Payload): (w: WirePayload)
    ensures forall i | 0 <= i < PAYLOAD_WORDS :: Ntohl(w[i]) == p[i]
  {
    NtohlHtonl(p[0]); NtohlHtonl(p[1]); NtohlHtonl(p[2]); NtohlHtonl(p[3]);
    [Htonl(p[0]), Htonl(p[1]), Htonl(p[2]), Htonl(p[3])]
  }

  /** `ofl_exp_msg_act_pack`. The vendor id is checked first, then the
      sub-type; on success the size of the wire structure is returned. */
  function Pack(sa: TlabAction, validVendor: u32 -> bool): (r: PackResult)
    ensures r.PackFailed? <==> !validVendor(sa.experimenter) || sa.action != OFPXMT_TLAB_GMPLS_LABEL
    ensures !validVendor(sa.experimenter) ==> r == PackFailed(BadExperimenter)
    ensures validVendor(sa.experimenter) && sa.action != OFPXMT_TLAB_GMPLS_LABEL ==> r == PackFailed(BadExpType)
    ensures r.Packed? ==> r.size == TLAB_WIRE_SIZE && Ntohs(r.wire.len) == r.size
  {
    if !validVendor(sa.experimenter) then
      PackFailed(BadExperimenter)
    else if sa.action != OFPXMT_TLAB_GMPLS_LABEL then
      PackFailed(BadExpType)
    else
      NtohsHtons(TLAB_WIRE_SIZE);
      Packed(WireTlab(Htons(TLAB_WIRE_SIZE), Htonl(sa.experimenter), sa.action, HtonlPayload(sa.payload)),
             TLAB_WIRE_SIZE)
  }

  /** `ofl_exp_msg_act_ofp_len`: the wire size, whatever the record holds. */
  function OfpLen(a: TlabAction): nat
  {
    TLAB_WIRE_SIZE
  }

  /** The size pack reports, the length it writes into the wire header, and
      the wire length the record claims all agree. */
  lemma PackSizeIsOfpLen(sa: TlabAction, validVendor: u32 -> bool)
    requires Pack(sa, validVendor).Packed?
    ensures Pack(sa, validVendor).size == OfpLen(sa)
    ensures Ntohs(Pack(sa, validVendor).wire.len) == OfpLen(sa)
  {
  }

  // ---------------------------------------------------------------------
  // Unpack

  /** `label_len`: the declared length less the payload offset. The
      subtraction is done on `size_t` (64 bits, wrapping) and the result is
      stored in a 32-bit `int`; for a 16-bit declared length no value is lost. */
  function LabelLen(declared: u16): (l: int)
    ensures l == declared - TLAB_PAYLOAD_OFFSET
  {
    var wide := (declared as int - TLAB_PAYLOAD_OFFSET) % 0x1_0000_0000_0000_0000;
    var low := wide % 0x1_0000_0000;
    if low < 0x8000_0000 then low else low - 0x1_0000_0000
  }

  /** How many times `for (i = 0; label_len > 0; i++, label_len -= 4)` runs:
      one word per started group of four bytes. */
  function LoopIterations(labelLen: int): (n: nat)
    ensures labelLen <= 0 ==> n == 0
    ensures labelLen > 0 ==> 4 * (n - 1) < labelLen <= 4 * n
    decreases labelLen
  {
    if labelLen <= 0 then 0 else 1 + LoopIterations(labelLen - 4)
  }

  /** The payload after the loop wrote its first `n` words; the rest keep
      what the fresh allocation held. */
  function FillPayload(block: Payload, src: WirePayload, n: nat): (p: Payload)
    requires n <= PAYLOAD_WORDS
  {
    seq(4, i requires 0 <= i < 4 => if i < n then Ntohl(src[i]) else block[i])
  }

  /** `ofl_exp_msg_act_unpack` as written. `len` is `*len`, the bytes the
      caller has left; `block` is what the record allocated at entry holds
      before anything is written to it. The allocated record is given back
      only on the vendor-id failure, and a declared length more than four
      words past the payload offset runs the label loop off the payload. */
  function UnpackAsWritten(src: WireTlab, len: nat, validVendor: u32 -> bool, block: TlabAction): (r: UnpackResult)
    ensures r.UnpackFailed? ==> (r.blockFreed <==> r.error == BadExperimenter)
    ensures r.PayloadOverrun? <==>
      && Ntohs(src.len) <= len && validVendor(Ntohl(src.experimenter))
      && src.action == OFPXMT_TLAB_GMPLS_LABEL
      && Ntohs(src.len) > TLAB_PAYLOAD_OFFSET + 4 * PAYLOAD_WORDS
  {
    var declared := Ntohs(src.len);
    if len < declared then
      UnpackFailed(BadLen, false)
    else if !validVendor(Ntohl(src.experimenter)) then
      UnpackFailed(BadExperimenter, true)
    else if src.action != OFPXMT_TLAB_GMPLS_LABEL then
      UnpackFailed(BadExpType, false)
    else
      var n := LoopIterations(LabelLen(declared));
      if n > PAYLOAD_WORDS then PayloadOverrun
      else
        var act := TlabAction(declared, Ntohl(src.experimenter), src.action, FillPayload(block.payload, src.payload, n));
        Unpacked(act, len - declared)
  }

  /** `ofl_exp_msg_act_unpack` as evidently intended: the same checks in the
      same order, but the allocated record is given back on every failure and
      the label loop stops at the last payload word. */
  function Unpack(src: WireTlab, len: nat, validVendor: u32 -> bool, block: TlabAction): (r: UnpackResult)
    ensures !r.PayloadOverrun?
    ensures r.UnpackFailed? ==> r.blockFreed
    // the length check comes before any other
    ensures r == UnpackFailed(BadLen, true) <==> len < Ntohs(src.len)
    ensures r == UnpackFailed(BadExperimenter, true) <==>
      Ntohs(src.len) <= len && !validVendor(Ntohl(src.experimenter))
    ensures r == UnpackFailed(BadExpType, true) <==>
      Ntohs(src.len) <= len && validVendor(Ntohl(src.experimenter)) && src.action != OFPXMT_TLAB_GMPLS_LABEL
    // success consumes exactly the declared length and keeps the header fields
    ensures r.Unpacked? ==>
      && r.remaining + Ntohs(src.len) == len
      && Htons(r.act.len) == src.len
      && Htonl(r.act.experimenter) == src.experimenter
      && r.act.action == src.action
    // every payload word that starts inside the declared length is decoded,
    // however long the record claims to be; the others keep the allocation's
    ensures r.Unpacked? ==> forall i | 0 <= i < PAYLOAD_WORDS ::
      r.act.payload[i]
        == if 4 * i < Ntohs(src.len) - TLAB_PAYLOAD_OFFSET then Ntohl(src.payload[i]) else block.payload[i]
  {
    var declared := Ntohs(src.len);
    if len < declared then
      UnpackFailed(BadLen, true)
    else if !validVendor(Ntohl(src.experimenter)) then
      UnpackFailed(BadExperimenter, true)
    else if src.action != OFPXMT_TLAB_GMPLS_LABEL then
      UnpackFailed(BadExpType, true)
    else
      var n := LoopIterations(LabelLen(declared));
      var words := if n < PAYLOAD_WORDS then n else PAYLOAD_WORDS;
      var act := TlabAction(declared, Ntohl(src.experimenter), src.action, FillPayload(block.payload, src.payload, words));
      HtonsNtohs(src.len);
      HtonlNtohl(src.experimenter);
      Unpacked(act, len - declared)
  }

  /** Neither unpack checks the declared length against the structure size:
      a record declaring length 0 with no bytes left is accepted, although
      the vendor id and the sub-type it is decoded from lie past `*len`. */
  lemma UnpackAcceptsTruncatedRecord(e: Be32, p: WirePayload, validVendor: u32 -> bool, block: TlabAction)
    requires validVendor(Ntohl(e))
    ensures var src := WireTlab([0, 0], e, OFPXMT_TLAB_GMPLS_LABEL, p);
      && UnpackAsWritten(src, 0, validVendor, block) == Unpack(src, 0, validVendor, block)
      && Unpack(src, 0, validVendor, block).Unpacked?
      && Unpack(src, 0, validVendor, block).act.len == 0
  {
  }

  /** The correction changes nothing where the code as written is defined:
      the same record on success, the same error on failure. */
  lemma UnpackRefinesAsWritten(src: WireTlab, len: nat, validVendor: u32 -> bool, block: TlabAction)
    ensures var w := UnpackAsWritten(src, len, validVendor, block);
      && (w.Unpacked? ==> Unpack(src, len, validVendor, block) == w)
      && (w.UnpackFailed? ==> Unpack(src, len, validVendor, block) == UnpackFailed(w.error, true))
  {
  }

  /** A length failure leaks the allocated record. */
  lemma UnpackAsWrittenLeaksOnBadLen(src: WireTlab, len: nat, validVendor: u32 -> bool, block: TlabAction)
    requires len < Ntohs(src.len)
    ensures UnpackAsWritten(src, len, validVendor, block) == UnpackFailed(BadLen, false)
  {
  }

  /** An accepted vendor with an unknown sub-type leaks the allocated record. */
  lemma UnpackAsWrittenLeaksOnBadExpType(src: WireTlab, len: nat, validVendor: u32 -> bool, block: TlabAction)
    requires Ntohs(src.len) <= len && validVendor(Ntohl(src.experimenter))
    requires src.action != OFPXMT_TLAB_GMPLS_LABEL
    ensures UnpackAsWritten(src, len, validVendor, block) == UnpackFailed(BadExpType, false)
  {
  }

  /** A GMPLS-label action declaring 36 bytes, with 36 bytes available and an
      accepted vendor, sends the label loop to a fifth word, `payload[4]`. */
  lemma UnpackAsWrittenOverrun(src: WireTlab, validVendor: u32 -> bool, block: TlabAction)
    requires src.len == [0, 36] && validVendor(Ntohl(src.experimenter))
    requires src.action == OFPXMT_TLAB_GMPLS_LABEL
    ensures LoopIterations(LabelLen(Ntohs(src.len))) == 5
    ensures UnpackAsWritten(src, 36, validVendor, block) == PayloadOverrun
  {
    assert Ntohs(src.len) == 36;
    assert LabelLen(36) == 20;
  }

  // ---------------------------------------------------------------------
  // Round trips

  lemma PayloadRoundTrip(p: Payload, block: Payload)
    ensures FillPayload(block, HtonlPayload(p), PAYLOAD_WORDS) == p
  {
    var w := HtonlPayload(p);
    assert forall i | 0 <= i < PAYLOAD_WORDS :: FillPayload(block, w, PAYLOAD_WORDS)[i] == Ntohl(w[i]);
  }

  /** Unpacking what pack produced gives the record back, with the wire size
      as its length, and consumes exactly that many bytes; whatever the
      fresh allocation held is overwritten. */
  lemma {:induction false} UnpackPack(sa: TlabAction, validVendor: u32 -> bool, len: nat, block: TlabAction)
    requires Pack(sa, validVendor).Packed? && TLAB_WIRE_SIZE <= len
    ensures Unpack(Pack(sa, validVendor).wire, len, validVendor, block)
         == Unpacked(sa.(len := TLAB_WIRE_SIZE), len - TLAB_WIRE_SIZE)
  {
    var w := Pack(sa, validVendor).wire;
    NtohsHtons(TLAB_WIRE_SIZE);
    NtohlHtonl(sa.experimenter);
    assert LabelLen(TLAB_WIRE_SIZE) == 16;
    assert LoopIterations(16) == 4;
    PayloadRoundTrip(sa.payload, block.payload);
  }

  /** Packing what unpack produced from a full-size GMPLS-label action gives
      the same wire structure back. */
  lemma {:induction false} PackUnpack(w: WireTlab, validVendor: u32 -> bool, len: nat, block: TlabAction)
    requires Ntohs(w.len) == TLAB_WIRE_SIZE && TLAB_WIRE_SIZE <= len
    requires validVendor(Ntohl(w.experimenter)) && w.action == OFPXMT_TLAB_GMPLS_LABEL
    ensures Unpack(w, len, validVendor, block).Unpacked?
    ensures Pack(Unpack(w, len, validVendor, block).act, validVendor) == Packed(w, TLAB_WIRE_SIZE)
  {
    var a := Unpack(w, len, validVendor, block).act;
    assert LabelLen(TLAB_WIRE_SIZE) == 16;
    assert LoopIterations(16) == 4;
    HtonsNtohs(w.len);
    HtonlNtohl(w.experimenter);
    forall i | 0 <= i < PAYLOAD_WORDS
      ensures HtonlPayload(a.payload)[i] == w.payload[i]
    {
      HtonlNtohl(w.payload[i]);
    }
  }

  // ---------------------------------------------------------------------
  // Release

  /** The release callback this vendor registers. */
  const TLAB_FREE: ActionRelease.Callback := ActionRelease.Callback("ofl_exp_msg_act_free")

  /** `ofl_exp_msg_act_free`: the status it returns and the effects it has. */
  function TlabActFree(id: ActionRelease.ResourceId): (int, seq<ActionRelease.Effect>)
  {
    (0, [])
  }

  /** Releasing an experimenter action through this vendor's callback frees
      nothing at all: release hands the record to the callback instead of
      freeing it, and the callback frees nothing. */
  lemma TlabReleaseFreesNothing(a: ActionRelease.Action, exp: ActionRelease.Option<ActionRelease.ExpRegistry>)
    requires ActionRelease.TypedBody(a) && a.typ == ActionRelease.OFPAT_EXPERIMENTER
    requires ActionRelease.FreeCallback(exp) == ActionRelease.Some(TLAB_FREE)
    ensures var log := ActionRelease.Release(a, exp);
      && log == [ActionRelease.Invoke(TLAB_FREE, a.id)]
      && TlabActFree(a.id) == (0, [])
      && forall id :: ActionRelease.FreeCount(log + TlabActFree(a.id).1, id) == 0
  {
  }
}
