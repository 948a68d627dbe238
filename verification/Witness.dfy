/**
 Witness receipts and proofs of equivocation (src/protocol/witness.ts).
 */
module Witness {
  import opened Wrappers
  import opened Chain

  datatype Head = Head(seqNo: int, hash: Hash, ts: int)

  /** A witness's signed word that it verified this venue's chain up to this hash. */
  datatype Receipt = Receipt(witnessId: string, venueId: string, seqNo: int, hash: Hash, at: int, signedBy: Option<string>)

  datatype WitnessKey = WitnessKey(witnessId: string, x: string)

  datatype EquivocationProof = EquivocationProof(venueId: string, seqNo: int, a: Receipt, b: Receipt, detectedBy: string, at: int)

  function SignReceipt(me: WitnessKey, venueId: string, seqNo: int, hash: Hash, at: int): Receipt {
    Receipt(me.witnessId, venueId, seqNo, hash, at, Some(me.x))
  }

  predicate VerifyReceipt(r: Receipt, x: string) { r.signedBy == Some(x) }

  function FindKey(keys: seq<WitnessKey>, id: string): Option<WitnessKey> {
    if keys == [] then None else if keys[0].witnessId == id then Some(keys[0]) else FindKey(keys[1..], id)
  }

  function MakeProof(a: Receipt, b: Receipt, detectedBy: string, at: int): Option<EquivocationProof> {
    if a.venueId != b.venueId || a.seqNo != b.seqNo || a.hash == b.hash then None
    else Some(EquivocationProof(a.venueId, a.seqNo, a, b, detectedBy, at))
  }

  predicate VerifyProof(p: EquivocationProof, keys: seq<WitnessKey>) {
    && p.a.venueId == p.venueId && p.b.venueId == p.venueId
    && p.a.seqNo == p.seqNo && p.b.seqNo == p.seqNo
    && p.a.hash != p.b.hash
    && var ka, kb := FindKey(keys, p.a.witnessId), FindKey(keys, p.b.witnessId);
       ka.Some? && kb.Some? && VerifyReceipt(p.a, ka.value.x) && VerifyReceipt(p.b, kb.value.x)
  }
}
