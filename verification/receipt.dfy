/** Signed receipts in hash-linked chains: src/aries/receipt.py lines 22-123. */
module Receipts {
  import opened Wrappers
  import opened Bits
  import Did

  /** The fields that neither signing nor linking changes. */
  datatype Facts = Facts(
    id: string, taskId: string, device: string, agent: string, action: string, status: string, modelUsed: string,
    tokensUsed: int, latencyMs: real, inputHash: string, outputHash: string, summary: string,
    continuationId: Option<string>, startedAt: real, completedAt: real)

  /** _signable_content: everything but the signature and its author. */
  datatype Content = Content(facts: Facts, previousId: Option<string>, previousHash: Option<string>)

  /** The state of one receipt. */
  datatype Snapshot = Snapshot(content: Content, signature: Option<string>, signedBy: Option<string>)

  datatype Error = NotHex(signature: string)

  /** The parts that receipts only call: did_to_public_key (Did.DidToPublicKey), SHA-256 of canonical JSON, canonical
      JSON, signing under a key, checking under a public key, hex. */
  datatype Crypto = Crypto(
    keyOf: string -> Result<seq<Byte>, Did.Error>, hash: Content -> string, payload: Content -> seq<Byte>, sign: (string, seq<Byte>) -> seq<Byte>,
    accepts: (seq<Byte>, seq<Byte>, seq<Byte>) -> bool, toHex: seq<Byte> -> string, fromHex: string -> Option<seq<Byte>>)

  /** What the key of did signs is accepted under that did, and its hex form can be read back. */
  ghost predicate SignsFor(c: Crypto, key: string, did: string) {
    did != "" && c.keyOf(did).Ok? &&
    forall x :: c.accepts(c.keyOf(did).value, c.payload(x), c.sign(key, c.payload(x))) &&
                c.toHex(c.sign(key, c.payload(x))) != "" &&
                c.fromHex(c.toHex(c.sign(key, c.payload(x)))) == Some(c.sign(key, c.payload(x)))
  }

  ghost predicate InjectiveHash(c: Crypto) { forall x, y :: c.hash(x) == c.hash(y) ==> x == y }

  // ---------------------------------------------------------------- one receipt

  /** Receipt.verify; bytes.fromhex raises ValueError on a signature that is not hex. */
  function Verified(c: Crypto, s: Snapshot): Result<bool, Error> {
    if s.signature.None? || s.signature.value == "" || s.signedBy.None? || s.signedBy.value == "" then Ok(false)
    else
      match c.keyOf(s.signedBy.value)
      case Err(_) => Ok(false)
      case Ok(key) =>
        match c.fromHex(s.signature.value)
        case None => Err(NotHex(s.signature.value))
        case Some(signature) => Ok(c.accepts(key, c.payload(s.content), signature))
  }

  /** Receipt.sign */
  function Signed(c: Crypto, s: Snapshot, key: string, did: string): Snapshot {
    s.(signature := Some(c.toHex(c.sign(key, c.payload(s.content)))), signedBy := Some(did))
  }

  lemma SignedVerifies(c: Crypto, s: Snapshot, key: string, did: string)
    requires SignsFor(c, key, did)
    ensures Verified(c, Signed(c, s, key, did)) == Ok(true)
  {
    var x := s.content;
    assert c.accepts(c.keyOf(did).value, c.payload(x), c.sign(key, c.payload(x)));
  }

  /** A signature and a signer are there, the signer's key reads, the signature is hex, and the key accepts it for the
      payload of the content. */
  ghost predicate WellSigned(c: Crypto, s: Snapshot) {
    s.signature.Some? && s.signature.value != "" && s.signedBy.Some? && s.signedBy.value != "" &&
    c.keyOf(s.signedBy.value).Ok? && c.fromHex(s.signature.value).Some? &&
    c.accepts(c.keyOf(s.signedBy.value).value, c.payload(s.content), c.fromHex(s.signature.value).value)
  }

  /** A receipt verifies exactly when it is well signed, and raises exactly when only the hex is wrong. */
  lemma VerifiedExactly(c: Crypto, s: Snapshot)
    ensures Verified(c, s) == Ok(true) <==> WellSigned(c, s)
    ensures WellSigned(c, s) ==>
              c.accepts(c.keyOf(s.signedBy.value).value, c.payload(s.content), c.fromHex(s.signature.value).value)
    ensures Verified(c, s).Err? <==>
            s.signature.Some? && s.signature.value != "" && s.signedBy.Some? && s.signedBy.value != "" &&
            c.keyOf(s.signedBy.value).Ok? && c.fromHex(s.signature.value).None?
  {
  }

  // ---------------------------------------------------------------- chains

  type History = seq<Snapshot>

  predicate LinksTo(c: Crypto, s: Snapshot, before: Snapshot) {
    s.content.previousId == Some(before.content.facts.id) && s.content.previousHash == Some(c.hash(before.content))
  }

  /** Receipt i of the chain verifies and, unless it is the first, links to the one before it. */
  predicate Holds(c: Crypto, h: History, i: nat)
    requires i < |h|
  {
    Verified(c, h[i]) == Ok(true) && (i > 0 ==> LinksTo(c, h[i], h[i - 1]))
  }

  predicate Intact(c: Crypto, h: History) { forall i: nat :: i < |h| ==> Holds(c, h, i) }

  /** verify_chain on the first receipts: the first failing one decides. */
  function Checked(c: Crypto, h: History): Result<bool, Error> {
    if h == [] then Ok(true)
    else
      var last := |h| - 1;
      match Checked(c, h[..last])
      case Err(e) => Err(e)
      case Ok(false) => Ok(false)
      case Ok(true) =>
        if Verified(c, h[last]) != Ok(true) then Verified(c, h[last])
        else Ok(last > 0 ==> LinksTo(c, h[last], h[last - 1]))
  }

  lemma HoldsInPrefix(c: Crypto, h: History, n: nat, i: nat)
    requires i < n <= |h|
    ensures Holds(c, h[..n], i) <==> Holds(c, h, i)
  {
    hide Verified, LinksTo;
  }

  lemma IntactLast(c: Crypto, h: History)
    requires h != []
    ensures Intact(c, h) <==> Intact(c, h[..|h| - 1]) && Holds(c, h, |h| - 1)
  {
    hide Holds;
    var last := |h| - 1;
    var shorter := h[..last];
    forall i: nat | i < last ensures Holds(c, shorter, i) <==> Holds(c, h, i) { HoldsInPrefix(c, h, last, i); }
    if Intact(c, shorter) && Holds(c, h, last) {
      forall i: nat | i < |h| ensures Holds(c, h, i) {
        if i < last { assert Holds(c, shorter, i); }
      }
    }
    if Intact(c, h) {
      forall i: nat | i < last ensures Holds(c, shorter, i) { assert Holds(c, h, i); }
      assert Holds(c, h, last);
    }
  }

  lemma {:induction false} CheckedExactly(c: Crypto, h: History)
    ensures Checked(c, h) == Ok(true) <==> Intact(c, h)
  {
    if h != [] {
      hide Intact, Verified, LinksTo;
      CheckedExactly(c, h[..|h| - 1]);
      IntactLast(c, h);
    } else {
      assert Intact(c, h);
    }
  }

  /** Receipt i is well signed and names the id and the hash of the one before it. */
  ghost predicate InPlace(c: Crypto, h: History, i: nat)
    requires i < |h|
  {
    WellSigned(c, h[i]) &&
    (i > 0 ==> h[i].content.previousId == Some(h[i - 1].content.facts.id) &&
               h[i].content.previousHash == Some(c.hash(h[i - 1].content)))
  }

  /** The same in terms of keys, payloads, ids and hashes. */
  lemma CheckedWrittenOut(c: Crypto, h: History)
    ensures Checked(c, h) == Ok(true) <==> forall i: nat :: i < |h| ==> InPlace(c, h, i)
  {
    hide Verified, WellSigned, Checked;
    CheckedExactly(c, h);
    forall i: nat | i < |h| ensures Holds(c, h, i) <==> InPlace(c, h, i) { VerifiedExactly(c, h[i]); }
    hide Holds, InPlace;
  }

  /** No signature is accepted for two different contents. */
  ghost predicate OneContentPerSignature(c: Crypto) {
    forall key, x, y, b :: c.accepts(key, c.payload(x), b) && c.accepts(key, c.payload(y), b) ==> x == y
  }

  /** Altering the content of any receipt after signing is noticed: the chain no longer verifies. */
  lemma TamperingIsNoticed(c: Crypto, h: History, i: nat, altered: Content)
    requires OneContentPerSignature(c) && Checked(c, h) == Ok(true) && i < |h| && altered != h[i].content
    ensures Checked(c, h[i := h[i].(content := altered)]) != Ok(true)
  {
    var g := h[i := h[i].(content := altered)];
    CheckedExactly(c, h);
    CheckedExactly(c, g);
    VerifiedExactly(c, h[i]);
    VerifiedExactly(c, g[i]);
    hide Verified, Checked, LinksTo;
    assert Holds(c, h, i) && !Holds(c, g, i);
  }

  /** An error is that of the first receipt that fails, and all before it hold. */
  lemma {:induction false} FirstFailureDecides(c: Crypto, h: History, i: nat)
    requires i < |h| && (forall j: nat :: j < i ==> Holds(c, h, j)) && !Holds(c, h, i)
    ensures Checked(c, h) == if Verified(c, h[i]) != Ok(true) then Verified(c, h[i]) else Ok(false)
    decreases |h|
  {
    var last := |h| - 1;
    hide Verified, LinksTo;
    var shorter := h[..last];
    forall j: nat | j < last ensures Holds(c, shorter, j) <==> Holds(c, h, j) { HoldsInPrefix(c, h, last, j); }
    if i < last {
      FirstFailureDecides(c, shorter, i);
    } else {
      CheckedExactly(c, shorter);
    }
  }

  /** A receipt linked to the content before, if any, and signed if there is a signer. */
  function Relinked(c: Crypto, before: Option<Content>, s: Snapshot, signer: Option<(string, string)>): Snapshot {
    var linked :=
      if before.None? then s
      else
        s.(content := s.content.(previousId := Some(before.value.facts.id), previousHash := Some(c.hash(before.value))));
    if signer.Some? then Signed(c, linked, signer.value.0, signer.value.1) else linked
  }

  /** The receipt as add leaves it at the end of the chain h. */
  function Added(c: Crypto, h: History, s: Snapshot, signer: Option<(string, string)>): Snapshot {
    Relinked(c, if h == [] then None else Some(h[|h| - 1].content), s, signer)
  }

  /** Adding links the receipt whether or not it is signed: the longer chain verifies exactly when the shorter one
      does and the receipt, as linked, carries a good signature. */
  lemma AddedExactly(c: Crypto, h: History, s: Snapshot, signer: Option<(string, string)>)
    ensures var r := Added(c, h, s, signer);
            Intact(c, h + [r]) <==> Intact(c, h) && Verified(c, r) == Ok(true)
  {
    var r := Added(c, h, s, signer);
    var longer := h + [r];
    CheckedExactly(c, h);
    CheckedExactly(c, longer);
    assert longer[..|h|] == h;
    assert h != [] ==> LinksTo(c, r, h[|h| - 1]);
    hide Verified;
  }

  /** Chains to which the receipts were added one by one, each with its signer. */
  function AddedAll(c: Crypto, added: seq<(Snapshot, string, string)>): History {
    if added == [] then []
    else
      var last := added[|added| - 1];
      var h := AddedAll(c, added[..|added| - 1]);
      h + [Added(c, h, last.0, Some((last.1, last.2)))]
  }

  /** Signed additions alone always give a chain that verifies. */
  lemma {:induction false} SignedAddsVerify(c: Crypto, added: seq<(Snapshot, string, string)>)
    requires forall a :: a in added ==> SignsFor(c, a.1, a.2)
    ensures Intact(c, AddedAll(c, added)) && |AddedAll(c, added)| == |added|
  {
    if added != [] {
      var last := added[|added| - 1];
      var h := AddedAll(c, added[..|added| - 1]);
      SignedAddsVerify(c, added[..|added| - 1]);
      AddedExactly(c, h, last.0, Some((last.1, last.2)));
      AddedVerifies(c, h, last.0, last.1, last.2);
      hide Intact, Added, SignsFor;
    }
  }

  lemma AddedVerifies(c: Crypto, h: History, s: Snapshot, key: string, did: string)
    requires SignsFor(c, key, did)
    ensures Verified(c, Added(c, h, s, Some((key, did)))) == Ok(true)
  {
    var linked := Added(c, h, s, None);
    SignedVerifies(c, linked, key, did);
  }

  // ---------------------------------------------------------------- the last hash fixes the history

  ghost predicate StartsAfresh(h: History) { h != [] && h[0].content.previousHash.None? }

  function LastHash(c: Crypto, h: History): string
    requires h != []
  {
    c.hash(h[|h| - 1].content)
  }

  /** Two verifying chains that end in the same hash record the same contents, counted from the end, as far as the
      shorter one goes. */
  lemma {:induction false} LastHashFixesSuffix(c: Crypto, g: History, h: History, i: nat)
    requires InjectiveHash(c) && Intact(c, g) && Intact(c, h) && g != [] && h != []
    requires LastHash(c, g) == LastHash(c, h) && i < |g| && i < |h|
    ensures g[|g| - 1 - i].content == h[|h| - 1 - i].content
    decreases i
  {
    assert g[|g| - 1].content == h[|h| - 1].content;
    if i > 0 {
      LinkedToShorter(c, g);
      LinkedToShorter(c, h);
      ShorterIntact(c, g);
      ShorterIntact(c, h);
      hide Intact, InjectiveHash;
      LastHashFixesSuffix(c, g[..|g| - 1], h[..|h| - 1], i - 1);
    }
  }

  lemma LinkedToShorter(c: Crypto, h: History)
    requires Intact(c, h) && |h| > 1
    ensures h[|h| - 1].content.previousHash == Some(LastHash(c, h[..|h| - 1]))
  {
    hide Verified;
    assert Holds(c, h, |h| - 1);
  }

  /** If neither chain has a predecessor they also have equal length: the last hash fixes the whole history. */
  lemma LastHashFixesHistory(c: Crypto, g: History, h: History)
    requires InjectiveHash(c) && Intact(c, g) && Intact(c, h) && StartsAfresh(g) && StartsAfresh(h)
    requires LastHash(c, g) == LastHash(c, h)
    ensures |g| == |h| && forall i :: 0 <= i < |g| ==> g[i].content == h[i].content
  {
    hide Intact, InjectiveHash, LastHash;
    NoLonger(c, g, h);
    NoLonger(c, h, g);
    forall i | 0 <= i < |g| ensures g[i].content == h[i].content {
      LastHashFixesSuffix(c, g, h, |g| - 1 - i);
    }
  }

  lemma NoLonger(c: Crypto, g: History, h: History)
    requires InjectiveHash(c) && Intact(c, g) && Intact(c, h) && StartsAfresh(g) && h != [] && LastHash(c, g) == LastHash(c, h)
    ensures |h| <= |g|
  {
    if |g| < |h| {
      LastHashFixesSuffix(c, g, h, |g| - 1);
      NotAfresh(c, h, |h| - |g|);
    }
  }

  lemma ShorterIntact(c: Crypto, h: History)
    requires Intact(c, h) && |h| > 1
    ensures Intact(c, h[..|h| - 1])
  {
    hide Holds;
    IntactLast(c, h);
  }

  /** The start matters: dropping receipts from the front always leaves a chain that verifies and ends alike. */
  lemma DroppingTheFrontVerifies(c: Crypto, h: History, k: nat)
    requires Intact(c, h) && k < |h|
    ensures Intact(c, h[k..]) && LastHash(c, h[k..]) == LastHash(c, h)
    ensures k > 0 ==> !StartsAfresh(h[k..])
  {
    hide Verified, LinksTo;
    forall i: nat | i < |h| - k ensures Holds(c, h[k..], i) {
      assert Holds(c, h, k + i);
    }
    if k > 0 { NotAfresh(c, h, k); }
  }

  lemma NotAfresh(c: Crypto, h: History, k: nat)
    requires Intact(c, h) && 0 < k < |h|
    ensures h[k].content.previousHash.Some?
  {
    assert Holds(c, h, k);
    hide Verified;
  }

  // ---------------------------------------------------------------- the objects

  class Receipt {
    const facts: Facts
    var previousId: Option<string>
    var previousHash: Option<string>
    var signature: Option<string>
    var signedBy: Option<string>

    constructor (facts: Facts)
      ensures this.facts == facts && previousId == None && previousHash == None && signature == None && signedBy == None
    {
      this.facts := facts;
      previousId, previousHash, signature, signedBy := None, None, None, None;
    }

    function SignableContent(): Content
      reads this
    {
      Content(facts, previousId, previousHash)
    }

    function State(): Snapshot
      reads this
    {
      Snapshot(SignableContent(), signature, signedBy)
    }

    /** sign */
    method Sign(c: Crypto, key: string, did: string)
      modifies this
      ensures State() == Signed(c, old(State()), key, did)
      ensures previousId == old(previousId) && previousHash == old(previousHash) && signedBy == Some(did)
      ensures signature == Some(c.toHex(c.sign(key, c.payload(Content(facts, previousId, previousHash)))))
    {
      signedBy := Some(did);
      signature := Some(c.toHex(c.sign(key, c.payload(SignableContent()))));
    }

    /** verify */
    method Verify(c: Crypto) returns (r: Result<bool, Error>)
      ensures r == Verified(c, State())
      ensures r == Ok(true) <==>
              signature.Some? && signature.value != "" && signedBy.Some? && signedBy.value != "" &&
              c.keyOf(signedBy.value).Ok? && c.fromHex(signature.value).Some? &&
              c.accepts(c.keyOf(signedBy.value).value, c.payload(Content(facts, previousId, previousHash)),
                        c.fromHex(signature.value).value)
    {
      if signature.None? || signature.value == "" || signedBy.None? || signedBy.value == "" { return Ok(false); }
      var key := c.keyOf(signedBy.value);
      if key.Err? { return Ok(false); }
      var bytes := c.fromHex(signature.value);
      if bytes.None? { return Err(NotHex(signature.value)); }
      r := Ok(c.accepts(key.value, c.payload(SignableContent()), bytes.value));
    }
  }

  class ReceiptChain {
    var receipts: seq<Receipt>

    constructor ()
      ensures receipts == []
    {
      receipts := [];
    }

    function Contents(): (h: History)
      reads this, receipts
      ensures |h| == |receipts| && forall i :: 0 <= i < |h| ==> h[i] == receipts[i].State()
    {
      seq(|receipts|, i requires 0 <= i < |receipts| reads this, receipts => receipts[i].State())
    }

    /** add; a receipt that is in the chain already is relinked in place, to itself if it is the last. */
    method Add(c: Crypto, r: Receipt, signer: Option<(string, string)>)
      modifies this, r
      ensures receipts == old(receipts) + [r]
      ensures forall x :: x in old(receipts) && x != r ==> x.State() == old(x.State())
      ensures var before :=
                if old(receipts) == [] then None
                else if old(receipts[|receipts| - 1]) == r then Some(old(r.SignableContent()).(previousId := Some(r.facts.id)))
                else Some(old(receipts[|receipts| - 1].SignableContent()));
              r.State() == Relinked(c, before, old(r.State()), signer) &&
              (before.Some? ==> r.previousId == Some(before.value.facts.id) && r.previousHash == Some(c.hash(before.value)))
      ensures r !in old(receipts) ==> Contents() == old(Contents()) + [Added(c, old(Contents()), old(r.State()), signer)]
      ensures r !in old(receipts) && signer.Some? && SignsFor(c, signer.value.0, signer.value.1) && Intact(c, old(Contents())) ==>
              Intact(c, Contents())
    {
      ghost var before, added := Contents(), Added(c, Contents(), r.State(), signer);
      if receipts != [] {
        var last := receipts[|receipts| - 1];
        r.previousId := Some(last.facts.id);
        r.previousHash := Some(c.hash(last.SignableContent()));
      }
      if signer.Some? { r.Sign(c, signer.value.0, signer.value.1); }
      receipts := receipts + [r];
      AddedToChain(c, before, old(r.State()), signer);
    }

    /** verify_chain */
    method VerifyChain(c: Crypto) returns (r: Result<bool, Error>)
      ensures r == Checked(c, Contents())
      ensures r == Ok(true) <==> Intact(c, Contents())
      ensures r == Ok(true) <==> forall i: nat :: i < |receipts| ==> InPlace(c, Contents(), i)
    {
      hide Verified, Intact, Checked, WellSigned;
      ghost var h := Contents();
      CheckedExactly(c, h);
      CheckedWrittenOut(c, h);
      var i := 0;
      while i < |receipts|
        invariant 0 <= i <= |receipts| && forall j: nat :: j < i ==> Holds(c, h, j)
      {
        var one := receipts[i].Verify(c);
        if one != Ok(true) {
          FirstFailureDecides(c, h, i);
          return one;
        }
        if i > 0 && (receipts[i].previousId != Some(receipts[i - 1].facts.id) ||
                     receipts[i].previousHash != Some(c.hash(receipts[i - 1].SignableContent()))) {
          FirstFailureDecides(c, h, i);
          return Ok(false);
        }
        i := i + 1;
      }
      AllHold(c, h);
      r := Ok(true);
    }
  }

  lemma AllHold(c: Crypto, h: History)
    requires forall j: nat :: j < |h| ==> Holds(c, h, j)
    ensures Intact(c, h)
  {
  }

  lemma AddedToChain(c: Crypto, h: History, s: Snapshot, signer: Option<(string, string)>)
    ensures signer.Some? && SignsFor(c, signer.value.0, signer.value.1) && Intact(c, h) ==> Intact(c, h + [Added(c, h, s, signer)])
  {
    AddedExactly(c, h, s, signer);
    if signer.Some? && SignsFor(c, signer.value.0, signer.value.1) {
      AddedVerifies(c, h, s, signer.value.0, signer.value.1);
    }
  }
}
