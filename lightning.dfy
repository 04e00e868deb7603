/** A simulated Lightning HODL invoice: created `Pending`, `Held` once paid, and
    `Settled` only by a preimage whose SHA-256 digest is the invoice's hash, or
    `Canceled`. The transitions do not look at the current status. */
module Lightning {
  import opened Hex
  import opened Crypto

  datatype Status = Pending | Held | Settled | Canceled

  datatype HodlInvoice = HodlInvoice(
    id: string,
    preimage: string,
    hash: string,
    amount: int,
    description: string,
    status: Status,
    expiresAt: int)

  /** Twenty-four hours, in seconds. */
  const InvoiceLifetime: int := 86400

  datatype PreimageAndHash = PreimageAndHash(preimage: string, hash: string)

  /** The digest a preimage is checked against: SHA-256 of the bytes `Buffer.from`
      reads from its hexadecimal text, written as lower-case hexadecimal. */
  function PreimageHash(p: Primitives, preimage: string): (r: string)
    ensures |r| == 2 * |p.sha256(Hex.Decode(preimage))| && IsLowerHex(r)
    ensures Hex.Decode(r) == p.sha256(Hex.Decode(preimage))
  {
    Hex.DecodeEncode(p.sha256(Hex.Decode(preimage)));
    Hex.Encode(p.sha256(Hex.Decode(preimage)))
  }

  /** `generatePreimageAndHash()`, given the 32 random bytes it draws: the preimage
      is their hexadecimal text and the hash is what settling checks that text against. */
  function GeneratePreimageAndHash(p: Primitives, random: seq<byte>): (r: PreimageAndHash)
    requires |random| == 32
    ensures |r.preimage| == 64 && IsLowerHex(r.preimage)
    ensures Hex.Decode(r.preimage) == random
    ensures r.hash == PreimageHash(p, r.preimage)
  {
    Hex.DecodeEncode(random);
    PreimageAndHash(Hex.Encode(random), Hex.Encode(p.sha256(random)))
  }

  /** `createHodlInvoice(amount, description, preimageHash)`, given the 16 random bytes
      of its id and the clock in milliseconds. */
  function CreateHodlInvoice(amount: int, description: string, preimageHash: string,
                             idBytes: seq<byte>, nowMs: int): (r: HodlInvoice)
    requires |idBytes| == 16
    ensures r.status == Pending && r.preimage == ""
    ensures r.hash == preimageHash && r.amount == amount && r.description == description
    ensures |r.id| == 32 && IsLowerHex(r.id) && Hex.Decode(r.id) == idBytes
    ensures (r.expiresAt - InvoiceLifetime) * 1000 <= nowMs < (r.expiresAt - InvoiceLifetime + 1) * 1000
  {
    Hex.DecodeEncode(idBytes);
    HodlInvoice(Hex.Encode(idBytes), "", preimageHash, amount, description, Pending,
                nowMs / 1000 + InvoiceLifetime)
  }

  /** The terms of an invoice: everything but its status and preimage. */
  predicate SameTerms(a: HodlInvoice, b: HodlInvoice) {
    a.id == b.id && a.hash == b.hash && a.amount == b.amount
    && a.description == b.description && a.expiresAt == b.expiresAt
  }

  /** `payHodlInvoice`: funds are held, whatever the status was. */
  function Pay(inv: HodlInvoice): (r: HodlInvoice)
    ensures r.status == Held && r.preimage == inv.preimage && SameTerms(r, inv)
  {
    inv.(status := Held)
  }

  /** `settleHodlInvoice`: settled, with the preimage recorded, exactly when the
      preimage hashes to the invoice's hash; otherwise the invoice itself. */
  function Settle(p: Primitives, inv: HodlInvoice, preimage: string): (r: HodlInvoice)
    ensures PreimageHash(p, preimage) == inv.hash ==>
      r.status == Settled && r.preimage == preimage && SameTerms(r, inv)
    ensures PreimageHash(p, preimage) != inv.hash ==> r == inv
    ensures r.status == Settled && inv.status != Settled ==> PreimageHash(p, preimage) == inv.hash
  {
    if PreimageHash(p, preimage) == inv.hash then inv.(status := Settled, preimage := preimage)
    else inv
  }

  /** `cancelHodlInvoice`: canceled, whatever the status was. */
  function Cancel(inv: HodlInvoice): (r: HodlInvoice)
    ensures r.status == Canceled && r.preimage == inv.preimage && SameTerms(r, inv)
  {
    inv.(status := Canceled)
  }

  lemma PayIdempotent(inv: HodlInvoice)
    ensures Pay(Pay(inv)) == Pay(inv)
  {
  }

  lemma CancelIdempotent(inv: HodlInvoice)
    ensures Cancel(Cancel(inv)) == Cancel(inv)
  {
  }

  lemma SettleIdempotent(p: Primitives, inv: HodlInvoice, preimage: string)
    ensures Settle(p, Settle(p, inv, preimage), preimage) == Settle(p, inv, preimage)
  {
  }

  /** The generated preimage settles any invoice made out for the generated hash,
      whatever its status. */
  lemma GeneratedPreimageSettles(p: Primitives, random: seq<byte>, inv: HodlInvoice)
    requires |random| == 32
    requires inv.hash == GeneratePreimageAndHash(p, random).hash
    ensures Settle(p, inv, GeneratePreimageAndHash(p, random).preimage).status == Settled
    ensures Settle(p, inv, GeneratePreimageAndHash(p, random).preimage).preimage == Hex.Encode(random)
  {
  }

  // ---------------------------------------------------------------------------
  // Runs of transitions
  // ---------------------------------------------------------------------------

  datatype Transition = PayT | SettleT(preimage: string) | CancelT

  function Apply(p: Primitives, inv: HodlInvoice, t: Transition): HodlInvoice {
    match t
    case PayT => Pay(inv)
    case SettleT(preimage) => Settle(p, inv, preimage)
    case CancelT => Cancel(inv)
  }

  /** The invoice after the transitions of `ts`, first to last. */
  function Run(p: Primitives, inv: HodlInvoice, ts: seq<Transition>): HodlInvoice
    decreases |ts|
  {
    if ts == [] then inv else Run(p, Apply(p, inv, ts[0]), ts[1..])
  }

  /** What an invoice promises its payer: a recorded preimage is one that unlocks the
      hash, and a settled invoice has one. */
  predicate Unlocked(p: Primitives, inv: HodlInvoice) {
    && (inv.preimage != "" ==> PreimageHash(p, inv.preimage) == inv.hash)
    && (inv.status == Settled ==> PreimageHash(p, inv.preimage) == inv.hash)
  }

  /** No run of transitions, from any invoice, changes its terms. */
  lemma {:induction false} RunKeepsTerms(p: Primitives, inv: HodlInvoice, ts: seq<Transition>)
    ensures SameTerms(Run(p, inv, ts), inv)
    decreases |ts|
  {
    if ts != [] {
      var next := Apply(p, inv, ts[0]);
      assert SameTerms(next, inv);
      RunKeepsTerms(p, next, ts[1..]);
    }
  }

  /** From an invoice that holds `Unlocked`, no run of transitions changes the terms
      or breaks `Unlocked`. */
  lemma {:induction false} RunInvariant(p: Primitives, inv: HodlInvoice, ts: seq<Transition>)
    requires Unlocked(p, inv)
    ensures SameTerms(Run(p, inv, ts), inv)
    ensures Unlocked(p, Run(p, inv, ts))
    decreases |ts|
  {
    RunKeepsTerms(p, inv, ts);
    if ts != [] {
      var next := Apply(p, inv, ts[0]);
      assert Unlocked(p, next);
      RunInvariant(p, next, ts[1..]);
    }
  }

  /** A new invoice holds no preimage yet, so every run from it keeps `Unlocked`. */
  lemma CreatedUnlocked(p: Primitives, amount: int, description: string, preimageHash: string,
                        idBytes: seq<byte>, nowMs: int, ts: seq<Transition>)
    requires |idBytes| == 16
    ensures var inv := CreateHodlInvoice(amount, description, preimageHash, idBytes, nowMs);
      Unlocked(p, Run(p, inv, ts)) && SameTerms(Run(p, inv, ts), inv)
  {
    RunInvariant(p, CreateHodlInvoice(amount, description, preimageHash, idBytes, nowMs), ts);
  }

  /** The scenario of the HODL demonstration route: an invoice for a generated hash,
      paid, settles with the generated preimage, stays held when offered a preimage
      that does not hash to it, and cancels. */
  lemma HodlScenario(p: Primitives, random: seq<byte>, idBytes: seq<byte>, nowMs: int,
                     wrong: string)
    requires |random| == 32 && |idBytes| == 16
    requires PreimageHash(p, wrong) != Hex.Encode(p.sha256(random))
    ensures var g := GeneratePreimageAndHash(p, random);
      var held := Pay(CreateHodlInvoice(5000, "Shopstr order #12345", g.hash, idBytes, nowMs));
      && held.status == Held
      && Settle(p, held, g.preimage) == held.(status := Settled, preimage := g.preimage)
      && Settle(p, held, wrong) == held
      && Cancel(held).status == Canceled
  {
  }
}
