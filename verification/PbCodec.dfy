/** Encoder and decoder together: a message goes through a buffer and comes back (pb_encode.c, pb_decode.c). */
module PbCodec {
  import opened UserKeys
  import opened PbDescriptor
  import opened PbMessage
  import opened PbStream
  import opened PbRoundTrip
  import opened PbTheorems
  import opened PbEncode
  import opened PbDecode

  /**
   * A message is encoded into a buffer and decoded from the bytes written. That works exactly when the encoding fits
   * the buffer, and gives the message back, with what was absent at its default.
   */
  method Transmit(fields: seq<Field>, slots: seq<Slot>, buffer: array<byte>) returns (ok: bool, dest: MessageStruct)
    requires GoodMessage(fields, slots)
    modifies buffer
    ensures fresh(dest) && (ok <==> |EncodeFields(fields, |fields|, slots).value| <= buffer.Length)
    ensures ok ==> dest.slots == Written(fields, |fields|, slots)
    ensures ok && NormalSlots(fields, slots) ==> dest.slots == slots
  {
    hide EncodeFields, DecodeMessage, DecodeFields, Written, Defaults, NormalSlots, TerminatedField, Valid, TypedSlots;
    var size, written;
    dest := new MessageStruct(Zeroed(SlotCount(fields)));
    ok, size, written := EncodeSized(fields, slots, buffer);
    if !ok { return; }
    var stream := new InputStream(buffer[..written]);
    MessageRoundTrip(fields, slots);
    ok := Decode(stream, fields, dest);
  }
}
