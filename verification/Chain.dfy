/**
 The venue's ledger: an append-only hash chain (src/ledger/chain.ts, src/protocol/ledger-hash.ts).

 An entry's hash is the symbolic term over everything it hashes, so two entries share a hash only
 when they agree on all of it. A signature names the key it claims, the key that made it and the
 hash it was made over.
 */
module Chain {
  import opened Wrappers
  import opened RootLog
  import opened VenueKeys

  datatype EntryType =
    | GENESIS | ROOT_ROTATION | COMMITMENT | LIFECYCLE | VOID | KEY_ROTATION | RESEAL | CREDENTIAL_STATUS | OTHER

  /** The members of a payload some check reads, and the rest of it as text. */
  datatype Payload = Payload(
    noticeHash: Option<string>,
    rootEvent: Option<RootEvent>,
    cert: Option<Cert>,
    revocation: Option<Revocation>,
    fromSeq: Option<int>,
    toSeq: Option<int>,
    rest: string)

  datatype Hash = Zero | H(seqNo: int, ts: int, typ: EntryType, payload: Payload, prev: Hash)

  datatype Jws = Jws(kid: Digest, signer: string, over: Hash)

  datatype Entry = Entry(seqNo: int, ts: int, typ: EntryType, payload: Payload, prevHash: Hash, hash: Hash, venueSig: Jws)

  datatype KeyPair = KeyPair(x: string, kid: Digest)

  function EntryHash(e: Entry): Hash { H(e.seqNo, e.ts, e.typ, e.payload, e.prevHash) }

  function Sign(key: KeyPair, h: Hash): Jws { Jws(key.kid, key.x, h) }

  predicate SignedBy(e: Entry, x: string) { e.venueSig.signer == x && e.venueSig.over == e.hash }

  function Seal(n: int, ts: int, typ: EntryType, payload: Payload, prev: Hash, key: KeyPair): Entry {
    var h := H(n, ts, typ, payload, prev);
    Entry(n, ts, typ, payload, prev, h, Sign(key, h))
  }

  /** What an entry says, apart from where it stands in the chain and who signed it. */
  datatype Content = Content(ts: int, typ: EntryType, payload: Payload)

  function ContentOf(e: Entry): Content { Content(e.ts, e.typ, e.payload) }

  function HeadHash(es: seq<Entry>): Hash {
    if es == [] then Zero else es[|es| - 1].hash
  }

  ghost predicate LinkAt(es: seq<Entry>, i: nat)
    requires i < |es|
  {
    es[i].prevHash == HeadHash(es[..i]) && es[i].hash == EntryHash(es[i])
  }

  /** Every entry hashes its content and its predecessor. */
  ghost predicate Chained(es: seq<Entry>) {
    forall i :: 0 <= i < |es| ==> LinkAt(es, i)
  }

  /** A ledger as the venue keeps it: chained, and numbered by position. */
  ghost predicate Book(es: seq<Entry>) {
    Chained(es) && forall i :: 0 <= i < |es| ==> es[i].seqNo == i
  }

  // ---------------------------------------------------------------- slicing, rolling back, keeping two books

  function From(es: seq<Entry>, n: int): seq<Entry> {
    if es == [] then [] else (if es[0].seqNo >= n then [es[0]] else []) + From(es[1..], n)
  }

  function UpTo(es: seq<Entry>, n: int): seq<Entry> {
    if es == [] then [] else (if es[0].seqNo <= n then [es[0]] else []) + UpTo(es[1..], n)
  }

  /** The later entries an alternative book keeps. */
  function Kept(es: seq<Entry>, n: int, exclude: Entry -> bool): seq<Entry> {
    if es == [] then [] else (if es[0].seqNo > n && !exclude(es[0]) then [es[0]] else []) + Kept(es[1..], n, exclude)
  }

  /** The given contents, sealed one after another onto `base`. */
  function Reseal(base: seq<Entry>, kept: seq<Entry>, key: KeyPair): seq<Entry>
    decreases |kept|
  {
    if kept == [] then base
    else
      var n := if base == [] then 0 else base[|base| - 1].seqNo + 1;
      Reseal(base + [Seal(n, kept[0].ts, kept[0].typ, kept[0].payload, HeadHash(base), key)], kept[1..], key)
  }

  function ForkOf(es: seq<Entry>, n: int, exclude: Entry -> bool, key: KeyPair): seq<Entry> {
    Reseal(UpTo(es, n), Kept(es, n, exclude), key)
  }

  class Ledger {
    var entries: seq<Entry>

    /** Opens a stored chain, or founds one with a GENESIS entry. */
    constructor (stored: seq<Entry>, ts: int, genesis: Payload, key: KeyPair)
      ensures stored != [] ==> entries == stored
      ensures stored == [] ==> entries == [Seal(0, ts, GENESIS, genesis, Zero, key)]
    {
      entries := stored;
      new;
      if |entries| == 0 { var _ := Append(GENESIS, genesis, ts, key); }
    }

    method Append(typ: EntryType, payload: Payload, ts: int, key: KeyPair) returns (entry: Entry)
      modifies this
      ensures entry == Seal(|old(entries)|, ts, typ, payload, HeadHash(old(entries)), key)
      ensures entries == old(entries) + [entry]
    {
      var prevHash := if |entries| > 0 then entries[|entries| - 1].hash else Zero;
      var hash := H(|entries|, ts, typ, payload, prevHash);
      entry := Entry(|entries|, ts, typ, payload, prevHash, hash, Sign(key, hash));
      entries := entries + [entry];
    }

    method Slice(fromSeq: int) returns (out: seq<Entry>)
      ensures out == From(entries, fromSeq)
    {
      out := [];
      for i := 0 to |entries|
        invariant From(entries, fromSeq) == out + From(entries[i..], fromSeq)
      {
        assert entries[i..][0] == entries[i] && entries[i..][1..] == entries[i + 1..];
        if entries[i].seqNo >= fromSeq { out := out + [entries[i]]; }
      }
    }

    method Truncate(n: int)
      modifies this
      ensures entries == UpTo(old(entries), n)
    {
      var out := [];
      for i := 0 to |entries|
        invariant entries == old(entries)
        invariant UpTo(entries, n) == out + UpTo(entries[i..], n)
      {
        assert entries[i..][0] == entries[i] && entries[i..][1..] == entries[i + 1..];
        if entries[i].seqNo <= n { out := out + [entries[i]]; }
      }
      entries := out;
    }

    method ForkView(fromSeq: int, exclude: Entry -> bool, key: KeyPair) returns (out: seq<Entry>)
      ensures out == ForkOf(entries, fromSeq, exclude, key)
    {
      out := UpTo(entries, fromSeq);
      var prev := if |out| > 0 then out[|out| - 1].hash else Zero;
      var n := (if |out| > 0 then out[|out| - 1].seqNo else -1) + 1;
      var kept := Kept(entries, fromSeq, exclude);
      for i := 0 to |kept|
        invariant Reseal(out, kept[i..], key) == ForkOf(entries, fromSeq, exclude, key)
        invariant prev == HeadHash(out) && n == if out == [] then 0 else out[|out| - 1].seqNo + 1
      {
        var e := kept[i];
        assert kept[i..][0] == e && kept[i..][1..] == kept[i + 1..];
        var hash := H(n, e.ts, e.typ, e.payload, prev);
        out := out + [Entry(n, e.ts, e.typ, e.payload, prev, hash, Sign(key, hash))];
        prev := hash;
        n := n + 1;
      }
    }
  }

  // ---------------------------------------------------------------- single-key verification

  datatype Defect = PREV_HASH | CONTENT_HASH | UNKNOWN_KEY | SIGNATURE | CERTIFICATE | REVOCATION

  datatype Verification = Sound | Unsound(firstBadSeq: int, defect: Defect)

  function VerifyFrom(es: seq<Entry>, prev: Hash, x: string): Verification {
    if es == [] then Sound
    else if es[0].prevHash != prev then Unsound(es[0].seqNo, PREV_HASH)
    else if EntryHash(es[0]) != es[0].hash then Unsound(es[0].seqNo, CONTENT_HASH)
    else if !SignedBy(es[0], x) then Unsound(es[0].seqNo, SIGNATURE)
    else VerifyFrom(es[1..], es[0].hash, x)
  }

  method VerifyChain(entries: seq<Entry>, x: string) returns (v: Verification)
    ensures v == VerifyFrom(entries, Zero, x)
    ensures v.Sound? <==> Chained(entries) && forall i :: 0 <= i < |entries| ==> SignedBy(entries[i], x)
  {
    var prev := Zero;
    for i := 0 to |entries|
      invariant VerifyFrom(entries, Zero, x) == VerifyFrom(entries[i..], prev, x)
      invariant prev == HeadHash(entries[..i])
      invariant forall j :: 0 <= j < i ==> LinkAt(entries, j) && SignedBy(entries[j], x)
    {
      var e := entries[i];
      assert entries[i..][0] == e && entries[i..][1..] == entries[i + 1..];
      assert LinkAt(entries, i) <==> e.prevHash == prev && e.hash == EntryHash(e);
      if e.prevHash != prev { return Unsound(e.seqNo, PREV_HASH); }
      if EntryHash(e) != e.hash { return Unsound(e.seqNo, CONTENT_HASH); }
      if !SignedBy(e, x) { return Unsound(e.seqNo, SIGNATURE); }
      prev := e.hash;
    }
    return Sound;
  }
}
