/** Signed evidence, as in internal/assurance/assurance.go. */
module Assurance {
  import opened Text
  import opened ArchiveFormat
  import opened MerkleTree

  datatype Observation = Observation(
    id: string, capability: string, agent: string, tenant: string, operation: string, target: string, digest: string,
    allowed: bool, reason: string, at: int)

  /** `rest` stands for the session, the tenant, the agent and the graph. */
  datatype Evidence = Evidence(
    version: int, operation: string, events: seq<Observation>, digest: string, signature: string, keyId: string,
    intentDigest: string, chainRoot: string, rest: string)

  /** SHA-256, hex, JSON, Ed25519 and base64, as functions of which only the laws below are used. */
  datatype Crypto = Crypto(
    hash: Hash, hex: Bytes -> string, event: Observation -> Option<Bytes>, evidence: Evidence -> Option<Bytes>,
    intent: Evidence -> Option<Bytes>, publicKey: Bytes -> Bytes, sign: (Bytes, Bytes) -> Bytes,
    verify: (Bytes, Bytes, Bytes) -> bool, base64: Bytes -> string, unbase64: string -> Option<Bytes>)

  const PUBLIC_KEY_BYTES := 32

  ghost predicate LawfulEncodings(c: Crypto) {
    && (forall x, y :: c.hex(x) == c.hex(y) ==> x == y)
    && (forall x :: |x| == DIGEST_BYTES ==> c.hex(x) != "")
    && (forall x :: c.unbase64(c.base64(x)) == Some(x))
    && (forall x :: x != [] ==> c.base64(x) != "")
  }

  /** JSON shows every field; an observation's ten keys alone take more than 64 bytes. */
  ghost predicate LawfulMarshal(c: Crypto) {
    && (forall a, b :: c.evidence(a) == c.evidence(b) && c.evidence(a).Some? ==> a == b)
    && (forall a, b :: c.event(a) == c.event(b) && c.event(a).Some? ==> a == b)
    && (forall a :: c.event(a).Some? ==> |c.event(a).value| != 2 * DIGEST_BYTES)
  }

  ghost predicate LawfulSignatures(c: Crypto) {
    && (forall key :: |c.publicKey(key)| == PUBLIC_KEY_BYTES)
    && (forall key, raw :: c.sign(key, raw) != [] && c.verify(c.publicKey(key), raw, c.sign(key, raw)))
  }

  ghost predicate Lawful(c: Crypto) {
    IsHash(c.hash) && LawfulEncodings(c) && LawfulMarshal(c) && LawfulSignatures(c)
  }

  /** Bytes as text and back, as an example of an encoding that loses nothing. */
  function AsText(b: Bytes): string {
    "x" + seq(|b|, i requires 0 <= i < |b| => b[i] as char)
  }

  function AsBytes(s: string): Option<Bytes> {
    if s == "" || exists i :: 0 < i < |s| && s[i] as int >= 256 then None
    else Some(seq(|s| - 1, i requires 0 <= i < |s| - 1 => if s[i + 1] as int < 256 then s[i + 1] as int else 0))
  }

  lemma TextIsLossless(b: Bytes)
    ensures AsBytes(AsText(b)) == Some(b) && AsText(b) != ""
  {
    assert AsBytes(AsText(b)).value == b;
  }

  /** The laws ask for nothing impossible: for all evidence and observations, some lawful functions marshal them. */
  lemma LawfulCryptoExists(ev: Evidence, o: Observation) returns (c: Crypto)
    ensures Lawful(c) && c.evidence(ev).Some? && c.event(o).Some?
  {
    c := Crypto(
      x => seq(DIGEST_BYTES, i => 0), AsText, x => if x == o then Some([1]) else None,
      x => if x == ev then Some([1]) else None, x => None, key => seq(PUBLIC_KEY_BYTES, i => 0),
      (key, raw) => [1], (pub, raw, sig) => true, AsText, AsBytes);
    forall x
      ensures AsBytes(AsText(x)) == Some(x) && AsText(x) != ""
    {
      TextIsLossless(x);
    }
    assert LawfulEncodings(c) && LawfulMarshal(c) && LawfulSignatures(c);
  }

  datatype Error = NoEvents | MarshalFailed | Incomplete | BadSignature | BadDigest | BadRoot

  function Fingerprint(c: Crypto, raw: Option<Bytes>): Option<string> {
    match raw
    case None => None
    case Some(bytes) => Some(c.hex(c.hash(bytes)))
  }

  // ---------------------------------------------------------------- the root of the events

  /** The JSON of every event. */
  function Inputs(c: Crypto, events: seq<Observation>): seq<Bytes>
    requires Marshals(c, events)
  {
    seq(|events|, i requires 0 <= i < |events| => c.event(events[i]).value)
  }

  predicate Marshals(c: Crypto, events: seq<Observation>) {
    forall i :: 0 <= i < |events| ==> c.event(events[i]).Some?
  }

  function EventsRoot(c: Crypto, events: seq<Observation>): Result<string, Error> {
    if events == [] then Err(NoEvents)
    else if !Marshals(c, events) then Err(MarshalFailed)
    else Ok(c.hex(RootOfInputs(c.hash, Inputs(c, events))))
  }

  method MerkleRoot(c: Crypto, events: seq<Observation>) returns (r: Result<string, Error>)
    ensures r == EventsRoot(c, events)
  {
    if |events| == 0 { return Err(NoEvents); }
    var levels: seq<Bytes> := [];
    for i := 0 to |events|
      invariant |levels| == i
      invariant forall j :: 0 <= j < i ==> c.event(events[j]).Some? && levels[j] == c.hash(c.event(events[j]).value)
    {
      var raw := c.event(events[i]);
      if raw == None { return Err(MarshalFailed); }
      levels := levels + [c.hash(raw.value)];
    }
    assert levels == HashAll(c.hash, Inputs(c, events));
    var root := RootOf(c.hash, levels);
    return Ok(c.hex(root));
  }

  // ---------------------------------------------------------------- signing and verifying

  function Finalize(c: Crypto, e: Evidence): Result<Evidence, Error> {
    match EventsRoot(c, e.events)
    case Err(err) => Err(err)
    case Ok(root) =>
      var rooted := e.(chainRoot := root);
      if e.intentDigest != "" || e.operation == "" then Ok(rooted)
      else
        match Fingerprint(c, c.intent(rooted))
        case None => Err(MarshalFailed)
        case Some(d) => Ok(rooted.(intentDigest := d))
  }

  /** The evidence as it is fingerprinted for signing: its own digest field is left as given. */
  function Prepared(finalized: Evidence, keyId: string): Evidence {
    finalized.(version := 1, keyId := keyId, signature := "")
  }

  function Sign(c: Crypto, e: Evidence, keyId: string, key: Bytes): Result<Evidence, Error> {
    match Finalize(c, e)
    case Err(err) => Err(err)
    case Ok(finalized) =>
      var prepared := Prepared(finalized, keyId);
      match Fingerprint(c, c.evidence(prepared))
      case None => Err(MarshalFailed)
      case Some(d) =>
        match c.evidence(prepared.(digest := d))
        case None => Err(MarshalFailed)
        case Some(raw) => Ok(prepared.(digest := d, signature := c.base64(c.sign(key, raw))))
  }

  function Verify(c: Crypto, e: Evidence, pub: Bytes): Option<Error> {
    if e.digest == "" || e.signature == "" || |pub| != PUBLIC_KEY_BYTES then Some(Incomplete)
    else
      match c.unbase64(e.signature)
      case None => Some(BadSignature)
      case Some(sig) =>
        var unsigned := e.(signature := "");
        match c.evidence(unsigned)
        case None => Some(MarshalFailed)
        case Some(raw) =>
          if !c.verify(pub, raw, sig) then Some(BadSignature)
          else if Fingerprint(c, c.evidence(unsigned.(digest := ""))) != Some(e.digest) then Some(BadDigest)
          else if e.events != [] && EventsRoot(c, e.events) != Ok(e.chainRoot) then Some(BadRoot)
          else None
  }

  /** Everything but the digest is right about freshly signed evidence. */
  lemma SignedUpToDigest(c: Crypto, e: Evidence, keyId: string, key: Bytes)
    requires Lawful(c) && Sign(c, e, keyId, key).Ok?
    ensures var s := Sign(c, e, keyId, key).value;
            && s.digest != "" && s.events == e.events
            && Fingerprint(c, c.evidence(s.(digest := e.digest, signature := ""))) == Some(s.digest)
            && (Verify(c, s, c.publicKey(key)) == None <==>
                Fingerprint(c, c.evidence(s.(digest := "", signature := ""))) == Some(s.digest))
  {
    var s := Sign(c, e, keyId, key).value;
    var prepared := Prepared(Finalize(c, e).value, keyId);
    var raw := c.evidence(prepared).value;
    assert |c.hash(raw)| == DIGEST_BYTES;
    assert s.(digest := e.digest, signature := "") == prepared;
    assert s.(signature := "") == prepared.(digest := s.digest);
    var signed := c.evidence(prepared.(digest := s.digest)).value;
    assert c.unbase64(s.signature) == Some(c.sign(key, signed));
    assert EventsRoot(c, s.events) == Ok(s.chainRoot);
  }

  /**
   * Signed evidence verifies if its digest field was empty when it was signed. If the field was not empty, the
   * signature covers a fingerprint of the old digest, and evidence that verifies all the same shows a collision.
   */
  lemma SignThenVerify(c: Crypto, e: Evidence, keyId: string, key: Bytes) returns (found: Option<Collision>)
    requires Lawful(c) && Sign(c, e, keyId, key).Ok?
    ensures var verdict := Verify(c, Sign(c, e, keyId, key).value, c.publicKey(key));
            && (e.digest == "" ==> verdict == None)
            && (e.digest != "" && verdict == None ==> found.Some? && Collides(c.hash, found.value))
  {
    SignedUpToDigest(c, e, keyId, key);
    var s := Sign(c, e, keyId, key).value;
    var given, cleared := s.(digest := e.digest, signature := ""), s.(digest := "", signature := "");
    found := None;
    if e.digest != "" && Verify(c, s, c.publicKey(key)) == None {
      found := SameFingerprint(c, given, cleared);
    }
  }

  /** Two pieces of evidence with the same fingerprint are the same, or show a collision. */
  lemma SameFingerprint(c: Crypto, a: Evidence, b: Evidence) returns (found: Option<Collision>)
    requires Lawful(c) && Fingerprint(c, c.evidence(a)) == Fingerprint(c, c.evidence(b)) && c.evidence(a).Some?
    ensures if found == None then a == b else Collides(c.hash, found.value)
  {
    var x, y := c.evidence(a).value, c.evidence(b).value;
    assert c.hex(c.hash(x)) == c.hex(c.hash(y));
    found := if x == y then None else Some(Collision(x, y));
  }

  /** Signing signed evidence again makes it unverifiable, but for a collision. */
  lemma SigningTwiceBreaks(c: Crypto, e: Evidence, keyId: string, key: Bytes, keyId': string, key': Bytes)
    returns (found: Option<Collision>)
    requires Lawful(c) && Sign(c, e, keyId, key).Ok?
    requires Sign(c, Sign(c, e, keyId, key).value, keyId', key').Ok?
    ensures var again := Sign(c, Sign(c, e, keyId, key).value, keyId', key').value;
            Verify(c, again, c.publicKey(key')) == None ==> found.Some? && Collides(c.hash, found.value)
  {
    SignedUpToDigest(c, e, keyId, key);
    found := SignThenVerify(c, Sign(c, e, keyId, key).value, keyId', key');
  }

  /** Verified evidence is determined by its digest, up to its signature, or there is a collision. */
  lemma DigestBinds(c: Crypto, a: Evidence, pubA: Bytes, b: Evidence, pubB: Bytes) returns (found: Option<Collision>)
    requires Lawful(c) && Verify(c, a, pubA) == None && Verify(c, b, pubB) == None && a.digest == b.digest
    ensures if found == None then a.(signature := "") == b.(signature := "") else Collides(c.hash, found.value)
  {
    found := SameFingerprint(c, a.(signature := "", digest := ""), b.(signature := "", digest := ""));
  }

  /** Two lists of events with the same root have the same expansion, and are the same if equally long, or collide. */
  lemma EventsRootBinds(c: Crypto, xs: seq<Observation>, ys: seq<Observation>) returns (found: Option<Collision>)
    requires Lawful(c) && EventsRoot(c, xs).Ok? && EventsRoot(c, xs) == EventsRoot(c, ys)
    ensures if found.Some? then Collides(c.hash, found.value)
            else Expanded(xs) == Expanded(ys) && (|xs| == |ys| ==> xs == ys)
  {
    InputsLookOuter(c, xs);
    InputsLookOuter(c, ys);
    assert RootOfInputs(c.hash, Inputs(c, xs)) == RootOfInputs(c.hash, Inputs(c, ys));
    found := MerkleBinds(c.hash, Inputs(c, xs), Inputs(c, ys));
    if found == None {
      EventsFromInputs(c, xs, ys);
    }
  }

  lemma VerifiedRoot(c: Crypto, e: Evidence, pub: Bytes)
    requires Verify(c, e, pub) == None && e.events != []
    ensures EventsRoot(c, e.events) == Ok(e.chainRoot)
  {
  }

  /**
   * Verified evidence with the same chain root records the same events up to the expansion of the tree, and exactly
   * the same events if their number is equal, or there is a collision.
   */
  lemma ChainRootBinds(c: Crypto, a: Evidence, pubA: Bytes, b: Evidence, pubB: Bytes) returns (found: Option<Collision>)
    requires Lawful(c) && Verify(c, a, pubA) == None && Verify(c, b, pubB) == None
    requires a.events != [] && b.events != [] && a.chainRoot == b.chainRoot
    ensures if found.Some? then Collides(c.hash, found.value)
            else Expanded(a.events) == Expanded(b.events) && (|a.events| == |b.events| ==> a.events == b.events)
  {
    VerifiedRoot(c, a, pubA);
    VerifiedRoot(c, b, pubB);
    found := EventsRootBinds(c, a.events, b.events);
  }

  lemma InputsLookOuter(c: Crypto, events: seq<Observation>)
    requires LawfulMarshal(c) && Marshals(c, events)
    ensures NoneLooksInner(Inputs(c, events))
  {
    assert forall i :: 0 <= i < |events| ==> c.event(events[i]).Some?;
  }

  lemma EventsFromInputs(c: Crypto, xs: seq<Observation>, ys: seq<Observation>)
    requires LawfulMarshal(c) && xs != [] && ys != [] && Marshals(c, xs) && Marshals(c, ys)
    requires Expanded(Inputs(c, xs)) == Expanded(Inputs(c, ys))
    ensures Expanded(xs) == Expanded(ys) && (|xs| == |ys| ==> xs == ys)
  {
    LeavesLeadExpansion(xs);
    LeavesLeadExpansion(ys);
    ExpandedEvents(c, xs);
    ExpandedEvents(c, ys);
    var n := |Expanded(xs)|;
    forall p | 0 <= p < n
      ensures p < |Expanded(ys)| && Expanded(xs)[p] == Expanded(ys)[p]
    {
      assert c.event(Expanded(xs)[p]) == Some(Expanded(Inputs(c, xs))[p]);
      assert c.event(Expanded(ys)[p]) == Some(Expanded(Inputs(c, ys))[p]);
    }
  }

  lemma ExpandedEvents(c: Crypto, xs: seq<Observation>)
    requires xs != [] && Marshals(c, xs)
    ensures |Expanded(Inputs(c, xs))| == |Expanded(xs)|
    ensures forall p :: 0 <= p < |Expanded(xs)| ==> c.event(Expanded(xs)[p]) == Some(Expanded(Inputs(c, xs))[p])
  {
    var raws := seq(|xs|, i requires 0 <= i < |xs| => c.event(xs[i]));
    var k := Height(|xs|);
    CountAtHeight(|xs|, 0);
    ExpansionMaps(c.event, xs, raws, k, 0);
    ExpansionMaps((raw: Bytes) => Some(raw), Inputs(c, xs), raws, k, 0);
  }

  // ---------------------------------------------------------------- what is checked

  /** There is a root exactly if there are events and all of them marshal; the error says which of the two fails. */
  lemma EventsRootExactly(c: Crypto, events: seq<Observation>)
    ensures (EventsRoot(c, events) == Err(NoEvents) <==> events == [])
    ensures (EventsRoot(c, events) == Err(MarshalFailed) <==>
             events != [] && exists i :: 0 <= i < |events| && c.event(events[i]) == None)
    ensures EventsRoot(c, events).Ok? ==>
              Marshals(c, events) && events != []
              && EventsRoot(c, events) == Ok(c.hex(Root(c.hash, HashAll(c.hash, Inputs(c, events)))))
  {
  }

  /** Evidence is rooted in its events, or there are none. */
  ghost predicate Rooted(c: Crypto, e: Evidence) {
    e.events != [] ==>
      Marshals(c, e.events) && e.chainRoot == c.hex(Root(c.hash, HashAll(c.hash, Inputs(c, e.events))))
  }

  ghost predicate SignedBy(c: Crypto, e: Evidence, pub: Bytes) {
    && c.unbase64(e.signature).Some? && c.evidence(e.(signature := "")).Some?
    && c.verify(pub, c.evidence(e.(signature := "")).value, c.unbase64(e.signature).value)
  }

  ghost predicate Digested(c: Crypto, e: Evidence) {
    && c.evidence(e.(signature := "", digest := "")).Some?
    && e.digest == c.hex(c.hash(c.evidence(e.(signature := "", digest := "")).value))
  }

  /**
   * Evidence verifies if and only if it has a digest and a signature, the key is 32 bytes long, the signature is valid
   * for everything but itself, the digest is the fingerprint of everything but digest and signature, and the chain
   * root is the root of the events. An error names a check that fails.
   */
  lemma VerifyExactly(c: Crypto, e: Evidence, pub: Bytes)
    ensures var error := Verify(c, e, pub);
            && (error == None <==>
                && e.digest != "" && e.signature != "" && |pub| == 32
                && SignedBy(c, e, pub) && Digested(c, e) && Rooted(c, e))
            && (error == Some(Incomplete) ==> e.digest == "" || e.signature == "" || |pub| != 32)
            && (error in {Some(BadSignature), Some(MarshalFailed)} ==> !SignedBy(c, e, pub))
            && (error == Some(BadDigest) ==> !Digested(c, e))
            && (error == Some(BadRoot) ==> !Rooted(c, e))
  {
  }

  /** What signing writes: version, key, chain root and, for an operation without one, the digest of its intent. */
  lemma SignExactly(c: Crypto, e: Evidence, keyId: string, key: Bytes)
    requires Sign(c, e, keyId, key).Ok?
    ensures var s := Sign(c, e, keyId, key).value;
            && s.version == 1 && s.keyId == keyId && e.events != [] && Rooted(c, s)
            && s == e.(version := 1, keyId := keyId, chainRoot := s.chainRoot, intentDigest := s.intentDigest,
                       digest := s.digest, signature := s.signature)
            && (e.intentDigest != "" || e.operation == "" ==> s.intentDigest == e.intentDigest)
            && (e.intentDigest == "" && e.operation != "" ==>
                  c.intent(e.(chainRoot := s.chainRoot)).Some?
                  && s.intentDigest == c.hex(c.hash(c.intent(e.(chainRoot := s.chainRoot)).value)))
            && c.evidence(s.(signature := "")).Some?
            && s.signature == c.base64(c.sign(key, c.evidence(s.(signature := "")).value))
  {
    var s := Sign(c, e, keyId, key).value;
    var finalized := Finalize(c, e).value;
    assert s.(signature := "") == Prepared(finalized, keyId).(digest := s.digest);
  }
}
