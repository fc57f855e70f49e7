/**
 Admission of an artifact against its catalog row (src/artifact/roundtrip_gate.c), with and without
 the reopen cache of src/artifact/reopen.c. A cache hit replaces the hash of the whole file; it is
 shown to change no verdict of the complete gate, and the exact cases in which it changes a verdict
 of the authentication step alone are given.

 Equal snapshots mean equal bytes: contents maps a snapshot to the bytes of its file. During one
 admission the file is either stable or not; reads succeed and nobody cancels.
 */
module Admission {
  import opened Bits
  import opened Encoding
  import opened Reopen

  datatype Artifact = Artifact(snapshot: Snapshot, stable: bool)

  // valid: every other pinned fact of the row is in order. structure: the parsed component matches.
  datatype Catalog = Catalog(valid: bool, structure: bool, identity: Bytes, fileBytes: nat)

  datatype Admission = Admission(complete: bool, identity: Bytes, fileBytes: nat, snapshot: Snapshot,
                                 hashed: nat, verified: bool)

  datatype Mode = FullHash | FallbackFullHash | VerifiedReopen

  // Which steps around the cache fail, and whether hashing the file is cut short.
  datatype Faults = Faults(check: bool, read: bool, create: bool, recheck: bool, replace: bool, hash: bool)

  datatype Key = Key(identity: Bytes, lease: Bytes)

  lemma EncodedInjective(i: Bytes, l: Bytes, s: Snapshot, j: Bytes, m: Bytes, t: Snapshot)
    requires |i| == |l| == |j| == |m| == 64
    requires Encoded(i, l, s) == Encoded(j, m, t)
    ensures i == j && l == m && s == t
  {
    hide Word, Magic, Words, Fields, Encoded;
    EncodedSize(j, m, t);
    Sections(Encoded(j, m, t), Expected(i, l, s));
    Sections(Encoded(j, m, t), Expected(j, m, t));
    FieldsSize(s);
    FieldsSize(t);
    WordsMatch(Words(Fields(t)), Fields(s));
    WordsMatch(Words(Fields(t)), Fields(t));
    FieldsRoundTrip(s, Fields(t));
    FieldsRoundTrip(t, Fields(t));
  }

  lemma EncodedSize(i: Bytes, l: Bytes, s: Snapshot)
    requires |i| == |l| == 64
    ensures |Encoded(i, l, s)| == RECEIPT_BYTES
  {
  }

  lemma FieldsSize(s: Snapshot)
    ensures |Fields(s)| == 7
  {
  }

  class Gate {
    const sha: Bytes -> Digest
    const contents: Snapshot -> Bytes
    var cache: map<Key, Bytes>

    constructor (sha: Bytes -> Digest, contents: Snapshot -> Bytes)
      ensures this.sha == sha && this.contents == contents && cache == map[]
    {
      this.sha, this.contents, cache := sha, contents, map[];
    }

    ghost predicate Matches(identity: Bytes, s: Snapshot) {
      HexOf(sha(contents(s))) == identity
    }

    function KeyOf(identity: Bytes, s: Snapshot): Key {
      Key(identity, LeaseIdentity(sha, identity, s))
    }

    function Receipt(identity: Bytes, s: Snapshot): Bytes {
      Encoded(identity, LeaseIdentity(sha, identity, s), s)
    }

    // A receipt that would be believed is true.
    ghost predicate Truthful(key: Key, bytes: Bytes) {
      forall identity, s | IsHex(identity) && KeyOf(identity, s) == key && bytes == Receipt(identity, s) ::
        Matches(identity, s)
    }

    ghost predicate Sound()
      reads this
    {
      forall key | key in cache :: Truthful(key, cache[key])
    }

    lemma ReceiptTruthful(identity: Bytes, s: Snapshot)
      requires IsHex(identity) && Matches(identity, s)
      ensures Truthful(KeyOf(identity, s), Receipt(identity, s))
    {
      hide Encoded, LeaseIdentity, HexOf;
      forall j, t | IsHex(j) && KeyOf(j, t) == KeyOf(identity, s) && Receipt(identity, s) == Receipt(j, t)
        ensures Matches(j, t)
      {
        EncodedInjective(identity, LeaseIdentity(sha, identity, s), s, j, LeaseIdentity(sha, j, t), t);
      }
    }

    // ---- The cache ----

    // rc is false when the check itself failed.
    method LeaseCheck(a: Artifact, identity: Bytes, fails: bool, unreadable: bool)
      returns (rc: bool, present: bool, verified: bool)
      ensures rc == (IsHex(identity) && a.stable && !fails)
      ensures verified <==> rc && !unreadable && KeyOf(identity, a.snapshot) in cache &&
                            cache[KeyOf(identity, a.snapshot)] == Receipt(identity, a.snapshot)
      ensures present ==> rc
    {
      hide HexOf, Encoded, IsHex;
      rc, present, verified := IsHex(identity) && a.stable && !fails, false, false;
      if !rc { return; }
      var key := KeyOf(identity, a.snapshot);
      if key !in cache { return; }
      present := true;
      if unreadable { return; }
      verified := Decode(cache[key], sha, Expected(identity, key.lease, a.snapshot));
    }

    // Creates the receipt, or replaces one that does not verify.
    method LeasePublish(a: Artifact, identity: Bytes, faults: Faults) returns (ok: bool)
      requires Sound() && (IsHex(identity) && a.stable ==> Matches(identity, a.snapshot))
      modifies this`cache
      ensures Sound()
      ensures ok ==> KeyOf(identity, a.snapshot) in cache &&
                     cache[KeyOf(identity, a.snapshot)] == Receipt(identity, a.snapshot)
      ensures !ok ==> cache == old(cache)
    {
      hide HexOf, Encoded, IsHex, Truthful;
      ok := false;
      if !IsHex(identity) || !a.stable { return; }
      var key := KeyOf(identity, a.snapshot);
      ReceiptTruthful(identity, a.snapshot);
      HexSize(identity, key.lease);
      var bytes := Encode(identity, key.lease, a.snapshot);
      if faults.create { return; }
      if key !in cache {
        cache := cache[key := bytes[..]];
        return true;
      }
      var rc, present, verified := LeaseCheck(a, identity, faults.recheck, faults.read);
      if !rc { return; }
      if verified { return true; }
      if faults.replace { return; }
      cache := cache[key := bytes[..]];
      ok := true;
    }

    lemma HexSize(identity: Bytes, lease: Bytes)
      ensures IsHex(identity) ==> |identity| == 64
      ensures IsHex(lease) ==> |lease| == 64
    {
    }

    // ---- The gate ----

    method CatalogCompatible(a: Artifact, row: Catalog) returns (ok: bool, out: Admission)
      ensures ok == (row.valid && row.structure && IsHex(row.identity) && a.stable &&
                     |contents(a.snapshot)| == row.fileBytes)
      ensures ok ==> out == Admission(true, row.identity, row.fileBytes, a.snapshot, 0, false)
    {
      ok, out := false, Admission(false, [], 0, a.snapshot, 0, false);
      if !row.structure || !row.valid || !IsHex(row.identity) { return; }
      if |contents(a.snapshot)| != row.fileBytes { return; }
      if !a.stable { return; }
      ok, out := true, Admission(true, row.identity, row.fileBytes, a.snapshot, 0, false);
    }

    // What hashing the whole file decides.
    ghost predicate HashAccepts(a: Artifact, m: Admission) {
      && m.complete && IsHex(m.identity) && a.stable && |contents(a.snapshot)| == m.fileBytes
      && Matches(m.identity, a.snapshot) && a.snapshot == m.snapshot
    }

    // fails: a read fails, or the caller cancels the hashing.
    method IdentityVerify(a: Artifact, m: Admission, fails: bool) returns (ok: bool, next: Admission)
      ensures ok == (HashAccepts(a, m) && !fails)
      ensures next == if ok then m.(hashed := |contents(a.snapshot)|, verified := true) else m
    {
      ok, next := false, m;
      if !m.complete || !IsHex(m.identity) || fails || !a.stable { return; }
      var bytes := contents(a.snapshot);
      if |bytes| != m.fileBytes || HexOf(sha(bytes)) != m.identity || a.snapshot != m.snapshot { return; }
      ok, next := true, m.(hashed := |bytes|, verified := true);
    }

    ghost predicate WouldHit(a: Artifact, m: Admission, faults: Faults)
      reads this
    {
      && IsHex(m.identity) && a.stable && !faults.check && !faults.read
      && KeyOf(m.identity, a.snapshot) in cache
      && cache[KeyOf(m.identity, a.snapshot)] == Receipt(m.identity, a.snapshot)
    }

    method Authenticate(a: Artifact, m: Admission, cached: bool, faults: Faults)
      returns (ok: bool, next: Admission, mode: Mode)
      requires Sound()
      modifies this`cache
      ensures Sound() && (!cached ==> cache == old(cache))
      ensures ok <==> (cached && old(WouldHit(a, m, faults))) || (HashAccepts(a, m) && !faults.hash)
      ensures ok ==> next.verified && next.identity == m.identity && next.snapshot == m.snapshot
      ensures mode == VerifiedReopen <==> cached && old(WouldHit(a, m, faults))
    {
      hide HexOf, Encoded, Truthful, HashAccepts, LeaseIdentity, IsHex;
      mode := FullHash;
      if cached {
        var rc, present, verified := LeaseCheck(a, m.identity, faults.check, faults.read);
        if verified { return true, m.(hashed := 0, verified := true), VerifiedReopen; }
        if !rc || present { mode := FallbackFullHash; }
      }
      ok, next := IdentityVerify(a, m, faults.hash);
      if ok && cached {
        AcceptedMatches(a, m);
        var published := LeasePublish(a, m.identity, faults);
      }
    }

    lemma AcceptedMatches(a: Artifact, m: Admission)
      requires HashAccepts(a, m)
      ensures Matches(m.identity, a.snapshot)
    {
    }

    /**
     On a hit the authentication step alone accepts; hashing would have done the same exactly when the
     admission is complete and names the size and the snapshot of the file at hand.
     */
    lemma HitAgrees(a: Artifact, m: Admission, faults: Faults)
      requires Sound() && WouldHit(a, m, faults)
      ensures HashAccepts(a, m) <==>
              m.complete && |contents(a.snapshot)| == m.fileBytes && a.snapshot == m.snapshot
    {
      hide HexOf, Encoded, LeaseIdentity, IsHex;
      var key := KeyOf(m.identity, a.snapshot);
      assert Truthful(key, cache[key]);
    }

    /** So a hit can accept what hashing refuses: an admission of the wrong size does it. */
    lemma HitCanDisagree(a: Artifact, m: Admission, faults: Faults)
      requires Sound() && WouldHit(a, m, faults)
      ensures var wrong := m.(fileBytes := |contents(a.snapshot)| + 1);
              WouldHit(a, wrong, faults) && !HashAccepts(a, wrong)
    {
    }

    // The verdict of the gate without a cache.
    ghost predicate Verdict(a: Artifact, row: Catalog) {
      && row.valid && row.structure && IsHex(row.identity) && a.stable
      && |contents(a.snapshot)| == row.fileBytes && Matches(row.identity, a.snapshot)
    }

    /**
     The complete gate accepts only what hashing the file would, and unless hashing is needed and cannot be
     finished it gives the same verdict with the cache as without it.
     */
    method AdmitCatalog(a: Artifact, row: Catalog, cached: bool, faults: Faults) returns (ok: bool, out: Admission)
      requires Sound()
      modifies this`cache
      ensures Sound()
      ensures ok ==> Verdict(a, row)
      ensures Verdict(a, row) && !ok ==> faults.hash
      ensures ok ==> out.verified && out.identity == row.identity && out.snapshot == a.snapshot
    {
      hide HexOf, Encoded, Truthful, LeaseIdentity, IsHex;
      ok, out := CatalogCompatible(a, row);
      if !ok { return; }
      var m := out;
      var mode;
      if cached && WouldHit(a, m, faults) { HitAgrees(a, m, faults); }
      ok, out, mode := Authenticate(a, m, cached, faults);
    }
  }

  // ---- Any sequence of admissions ----

  // Between admissions somebody may remove a receipt, or overwrite it with bytes that are not a
  // receipt for the place they are put.
  datatype Event =
    | Admit(artifact: Artifact, row: Catalog, cached: bool, faults: Faults)
    | Tamper(key: Key, bytes: Bytes)
    | Remove(key: Key)

  ghost predicate NoForgery(g: Gate, e: Event) {
    e.Tamper? ==> forall identity, s | g.KeyOf(identity, s) == e.key :: e.bytes != g.Receipt(identity, s)
  }

  ghost predicate Right(g: Gate, e: Event, accepted: bool)
    requires e.Admit?
  {
    && (accepted ==> g.Verdict(e.artifact, e.row))
    && (!e.faults.hash ==> (accepted <==> g.Verdict(e.artifact, e.row)))
  }

  /**
   Over any sequence of events, every admission gets the verdict of hashing its file; one whose hashing
   cannot be finished may be refused, and is never accepted wrongly.
   */
  method AdmitAll(g: Gate, events: seq<Event>) returns (verdicts: seq<bool>)
    requires g.Sound() && forall i | 0 <= i < |events| :: NoForgery(g, events[i])
    modifies g`cache
    ensures g.Sound() && |verdicts| == |events|
    ensures forall i | 0 <= i < |events| && events[i].Admit? :: Right(g, events[i], verdicts[i])
  {
    verdicts := [];
    for k := 0 to |events|
      invariant g.Sound() && |verdicts| == k
      invariant forall i | 0 <= i < k && events[i].Admit? :: Right(g, events[i], verdicts[i])
    {
      var verdict := false;
      match events[k] {
        case Admit(a, row, cached, faults) =>
          var out;
          verdict, out := g.AdmitCatalog(a, row, cached, faults);
        case Tamper(key, bytes) =>
          assert NoForgery(g, events[k]);
          g.cache := g.cache[key := bytes];
        case Remove(key) =>
          g.cache := g.cache - {key};
      }
      verdicts := verdicts + [verdict];
    }
  }
}
