/** The four hash constructions over `canonicalize`. */
module Hashing {
  import opened Texts
  import opened Jsons
  import opened Wrappers
  import opened JsonPrinter
  import opened JsonReader
  import opened Canonical
  import opened AuditLog

  /** The two library functions the constructions rest on: `hashlib.sha256(...).hexdigest()` on
      ASCII bytes, and `datetime.isoformat()` on UTC instants. */
  datatype Env = Env(sha256: string -> Text, isoformat: int -> Text)

  /** Instants are rendered apart and without surrogates. */
  ghost predicate FaithfulClock(env: Env) {
    && (forall s, t :: env.isoformat(s) == env.isoformat(t) ==> s == t)
    && (forall t :: PairFree(env.isoformat(t)))
  }

  function Instant(env: Env, t: int): Text {
    env.isoformat(t)
  }

  function RequestMembers(r: Request): Dict {
    [
      Member(Lit("tenantId"), Str(r.tenantId)),
      Member(Lit("eventType"), Str(r.eventType)),
      Member(Lit("actorId"), Str(r.actorId)),
      Member(Lit("resourceType"), Str(r.resourceType)),
      Member(Lit("resourceId"), Str(r.resourceId)),
      Member(Lit("payload"), Obj(r.payload))
    ]
  }

  function EventMembers(env: Env, c: Content): Dict {
    RequestMembers(c.request) + [
      Member(Lit("timestamp"), Str(Instant(env, c.timestamp))),
      Member(Lit("previousHash"), Str(c.previousHash))
    ]
  }

  function EventPreimage(env: Env, c: Content): string {
    Canonicalize(Obj(EventMembers(env, c)))
  }

  function ComputeEventHash(env: Env, c: Content): Text {
    env.sha256(EventPreimage(env, c))
  }

  function RequestPreimage(r: Request): string {
    Canonicalize(Obj(RequestMembers(r)))
  }

  function ComputeRequestFingerprint(env: Env, r: Request): Text {
    env.sha256(RequestPreimage(r))
  }

  function FieldPreimage(v: Json): string {
    Canonicalize(Obj([Member(Lit("value"), v)]))
  }

  function HashFieldValue(env: Env, v: Json): Text {
    env.sha256(FieldPreimage(v))
  }

  datatype ManifestEntry = ManifestEntry(id: int, eventHash: Text)

  function EntryMembers(e: ManifestEntry): Dict {
    [Member(Lit("id"), Num(e.id)), Member(Lit("eventHash"), Str(e.eventHash))]
  }

  function EntryItems(entries: seq<ManifestEntry>): (r: seq<Json>)
    ensures |r| == |entries|
    ensures forall i :: 0 <= i < |entries| ==> r[i] == Obj(EntryMembers(entries[i]))
  {
    seq(|entries|, i requires 0 <= i < |entries| => Obj(EntryMembers(entries[i])))
  }

  function ManifestPreimage(entries: seq<ManifestEntry>): string {
    Canonicalize(Obj([Member(Lit("entries"), Arr(EntryItems(entries)))]))
  }

  function ComputeManifestHash(env: Env, entries: seq<ManifestEntry>): Text {
    env.sha256(ManifestPreimage(entries))
  }

  // ----- what the preimages pin down -----

  ghost predicate CleanRequest(r: Request) {
    && PairFree(r.tenantId) && PairFree(r.eventType) && PairFree(r.actorId)
    && PairFree(r.resourceType) && PairFree(r.resourceId) && CleanDict(r.payload)
  }

  ghost predicate CleanContent(c: Content) {
    CleanRequest(c.request) && PairFree(c.previousHash)
  }

  lemma LitPairFree(s: string)
    ensures PairFree(Lit(s))
  {
  }

  const EVENT_KEYS: seq<string> := [
    "tenantId", "eventType", "actorId", "resourceType", "resourceId", "payload", "timestamp", "previousHash"
  ]

  lemma EventKeysDistinct(i: nat, j: nat)
    requires i < j < 8
    ensures Lit(EVENT_KEYS[i]) != Lit(EVENT_KEYS[j])
  {
    if |EVENT_KEYS[i]| == |EVENT_KEYS[j]| {
      assert EVENT_KEYS[i][0] != EVENT_KEYS[j][0];
    }
  }

  lemma EventMembersDistinct(env: Env, c: Content)
    ensures DistinctKeys(EventMembers(env, c))
  {
    var d := EventMembers(env, c);
    forall i, j | 0 <= i < j < |d|
      ensures d[i].key != d[j].key
    {
      EventKeysDistinct(i, j);
      assert d[i].key == Lit(EVENT_KEYS[i]) && d[j].key == Lit(EVENT_KEYS[j]);
    }
  }

  lemma RequestMembersDistinct(r: Request)
    ensures DistinctKeys(RequestMembers(r))
  {
    var d := RequestMembers(r);
    forall i, j | 0 <= i < j < |d|
      ensures d[i].key != d[j].key
    {
      EventKeysDistinct(i, j);
      assert d[i].key == Lit(EVENT_KEYS[i]) && d[j].key == Lit(EVENT_KEYS[j]);
    }
  }

  /** Dicts with the same keys in the same places normalise alike only if their values do. */
  lemma SameKeysSameValues(a: Dict, b: Dict, i: nat)
    requires DistinctKeys(a) && |a| == |b| && forall k :: 0 <= k < |a| ==> a[k].key == b[k].key
    requires NormalizeDict(a) == NormalizeDict(b)
    requires i < |a|
    ensures Normalize(a[i].value) == Normalize(b[i].value)
  {
    DictForgetsOnlyOrder(a, b);
  }

  lemma RequestMembersClean(r: Request)
    requires CleanRequest(r)
    ensures CleanDict(RequestMembers(r))
  {
    forall i | 0 <= i < 6
      ensures PairFree(RequestMembers(r)[i].key)
    {
      LitPairFree(EVENT_KEYS[i]);
    }
  }

  lemma EventMembersClean(env: Env, c: Content)
    requires FaithfulClock(env) && CleanContent(c)
    ensures CleanDict(EventMembers(env, c))
  {
    RequestMembersClean(c.request);
    LitPairFree("timestamp");
    LitPairFree("previousHash");
  }

  /** Two contents have the same event preimage exactly when they agree up to dict order. */
  lemma EventPreimageInjective(env: Env, c: Content, c': Content)
    requires FaithfulClock(env) && CleanContent(c) && CleanContent(c')
    ensures EventPreimage(env, c) == EventPreimage(env, c') <==> Canon(c) == Canon(c')
  {
    var a, b := EventMembers(env, c), EventMembers(env, c');
    EventMembersClean(env, c);
    EventMembersClean(env, c');
    CanonicalizeInjective(Obj(a), Obj(b));
    EventMembersDistinct(env, c);
    EventMembersDistinct(env, c');
    if NormalizeDict(a) == NormalizeDict(b) {
      EventMembersDetermine(env, c, c');
    }
    if Canon(c) == Canon(c') {
      EventMembersDetermined(env, c, c');
    }
  }

  lemma EventMembersValues(env: Env, c: Content, c': Content)
    requires NormalizeDict(EventMembers(env, c)) == NormalizeDict(EventMembers(env, c'))
    ensures forall i :: 0 <= i < 8 ==>
              Normalize(EventMembers(env, c)[i].value) == Normalize(EventMembers(env, c')[i].value)
  {
    EventMembersDistinct(env, c);
    EventMembersDistinct(env, c');
    DictForgetsOnlyOrder(EventMembers(env, c), EventMembers(env, c'));
  }

  lemma EventMembersDetermine(env: Env, c: Content, c': Content)
    requires FaithfulClock(env)
    requires NormalizeDict(EventMembers(env, c)) == NormalizeDict(EventMembers(env, c'))
    ensures Canon(c) == Canon(c')
  {
    EventMembersValues(env, c, c');
    ValuesDetermine(env, c, c', EventMembers(env, c), EventMembers(env, c'));
  }

  predicate HasEventValues(env: Env, c: Content, d: Dict) {
    && |d| == 8
    && d[0].value == Str(c.request.tenantId) && d[1].value == Str(c.request.eventType)
    && d[2].value == Str(c.request.actorId) && d[3].value == Str(c.request.resourceType)
    && d[4].value == Str(c.request.resourceId) && d[5].value == Obj(c.request.payload)
    && d[6].value == Str(Instant(env, c.timestamp)) && d[7].value == Str(c.previousHash)
  }

  lemma ValuesDetermine(env: Env, c: Content, c': Content, a: Dict, b: Dict)
    requires FaithfulClock(env) && HasEventValues(env, c, a) && HasEventValues(env, c', b)
    requires forall i :: 0 <= i < 8 ==> Normalize(a[i].value) == Normalize(b[i].value)
    ensures Canon(c) == Canon(c')
  {
    assert a[0].value == b[0].value && a[1].value == b[1].value && a[2].value == b[2].value;
    assert a[3].value == b[3].value && a[4].value == b[4].value;
    assert Normalize(a[5].value) == Normalize(b[5].value);
    assert a[6].value == b[6].value && a[7].value == b[7].value;
  }

  lemma EventMembersDetermined(env: Env, c: Content, c': Content)
    requires Canon(c) == Canon(c')
    ensures NormalizeDict(EventMembers(env, c)) == NormalizeDict(EventMembers(env, c'))
  {
    var a, b := EventMembers(env, c), EventMembers(env, c');
    assert CanonRequest(c.request) == CanonRequest(c'.request);
    assert forall i :: 0 <= i < 8 && i != 5 ==> a[i] == b[i];
    assert Normalize(a[5].value) == Normalize(b[5].value) && a[5].key == b[5].key;
    assert NormalizeMembers(a) == NormalizeMembers(b);
  }

  lemma RequestPreimageInjective(r: Request, r': Request)
    requires CleanRequest(r) && CleanRequest(r')
    ensures RequestPreimage(r) == RequestPreimage(r') <==> CanonRequest(r) == CanonRequest(r')
  {
    var a, b := RequestMembers(r), RequestMembers(r');
    RequestMembersClean(r);
    RequestMembersClean(r');
    CanonicalizeInjective(Obj(a), Obj(b));
    if NormalizeDict(a) == NormalizeDict(b) {
      RequestMembersDetermine(r, r');
    }
    if CanonRequest(r) == CanonRequest(r') {
      assert NormalizeMembers(a) == NormalizeMembers(b);
    }
  }

  lemma RequestMembersValues(r: Request, r': Request)
    requires NormalizeDict(RequestMembers(r)) == NormalizeDict(RequestMembers(r'))
    ensures forall i :: 0 <= i < 6 ==>
              Normalize(RequestMembers(r)[i].value) == Normalize(RequestMembers(r')[i].value)
  {
    RequestMembersDistinct(r);
    RequestMembersDistinct(r');
    DictForgetsOnlyOrder(RequestMembers(r), RequestMembers(r'));
  }

  lemma RequestMembersDetermine(r: Request, r': Request)
    requires NormalizeDict(RequestMembers(r)) == NormalizeDict(RequestMembers(r'))
    ensures CanonRequest(r) == CanonRequest(r')
  {
    var a, b := RequestMembers(r), RequestMembers(r');
    RequestMembersValues(r, r');
    assert a[0].value == b[0].value && a[1].value == b[1].value && a[2].value == b[2].value;
    assert a[3].value == b[3].value && a[4].value == b[4].value;
    assert Normalize(a[5].value) == Normalize(b[5].value);
  }

  lemma FieldPreimageInjective(v: Json, w: Json)
    requires Clean(v) && Clean(w)
    ensures FieldPreimage(v) == FieldPreimage(w) <==> Normalize(v) == Normalize(w)
  {
    LitPairFree("value");
    var a, b := [Member(Lit("value"), v)], [Member(Lit("value"), w)];
    CanonicalizeInjective(Obj(a), Obj(b));
    if NormalizeDict(a) == NormalizeDict(b) {
      SameKeysSameValues(a, b, 0);
    }
    if Normalize(v) == Normalize(w) {
      assert NormalizeMembers(a) == NormalizeMembers(b);
    }
  }

  lemma EntryInjective(e: ManifestEntry, e': ManifestEntry)
    requires NormalizeDict(EntryMembers(e)) == NormalizeDict(EntryMembers(e'))
    ensures e == e'
  {
    var a, b := EntryMembers(e), EntryMembers(e');
    EntryMembersDistinct(e);
    SameKeysSameValues(a, b, 0);
    SameKeysSameValues(a, b, 1);
    assert a[0].value == b[0].value && a[1].value == b[1].value;
  }

  lemma ManifestClean(entries: seq<ManifestEntry>)
    requires forall i :: 0 <= i < |entries| ==> PairFree(entries[i].eventHash)
    ensures CleanDict([Member(Lit("entries"), Arr(EntryItems(entries)))])
  {
    LitPairFree("entries");
    LitPairFree("id");
    LitPairFree("eventHash");
    forall i | 0 <= i < |entries|
      ensures Clean(EntryItems(entries)[i])
    {
      assert CleanDict(EntryMembers(entries[i]));
    }
  }

  /** A manifest preimage determines which records it lists and in what order. */
  lemma ManifestPreimageInjective(es: seq<ManifestEntry>, fs: seq<ManifestEntry>)
    requires forall i :: 0 <= i < |es| ==> PairFree(es[i].eventHash)
    requires forall i :: 0 <= i < |fs| ==> PairFree(fs[i].eventHash)
    ensures ManifestPreimage(es) == ManifestPreimage(fs) <==> es == fs
  {
    ManifestClean(es);
    ManifestClean(fs);
    var a, b := [Member(Lit("entries"), Arr(EntryItems(es)))], [Member(Lit("entries"), Arr(EntryItems(fs)))];
    CanonicalizeInjective(Obj(a), Obj(b));
    if NormalizeDict(a) == NormalizeDict(b) {
      SameKeysSameValues(a, b, 0);
      assert NormalizeItems(EntryItems(es)) == NormalizeItems(EntryItems(fs));
      forall i | 0 <= i < |es|
        ensures es[i] == fs[i]
      {
        assert Normalize(EntryItems(es)[i]) == Normalize(EntryItems(fs)[i]);
        EntryInjective(es[i], fs[i]);
      }
    }
  }

  lemma {:induction false} InsertMemberLength(m: Member, d: Dict)
    ensures |InsertMember(m, d)| == |d| + 1
  {
    if d != [] && !AtMost(m.key, d[0].key) {
      InsertMemberLength(m, d[1..]);
    }
  }

  lemma {:induction false} SortMembersLength(d: Dict)
    ensures |SortMembers(d)| == |d|
  {
    if d != [] {
      SortMembersLength(d[1..]);
      InsertMemberLength(d[0], SortMembers(d[1..]));
    }
  }

  lemma DifferentSizes(a: Dict, b: Dict)
    requires CleanDict(a) && CleanDict(b) && |a| != |b|
    ensures Canonicalize(Obj(a)) != Canonicalize(Obj(b))
  {
    CanonicalizeInjective(Obj(a), Obj(b));
    SortMembersLength(NormalizeMembers(a));
    SortMembersLength(NormalizeMembers(b));
  }

  /** No preimage of one family is a preimage of another, so one hash function serves all four. */
  lemma FamiliesDisjoint(env: Env, c: Content, r: Request, v: Json, es: seq<ManifestEntry>)
    requires FaithfulClock(env) && CleanContent(c) && CleanRequest(r) && Clean(v)
    requires forall i :: 0 <= i < |es| ==> PairFree(es[i].eventHash)
    ensures EventPreimage(env, c) != RequestPreimage(r)
    ensures EventPreimage(env, c) != FieldPreimage(v)
    ensures EventPreimage(env, c) != ManifestPreimage(es)
    ensures RequestPreimage(r) != FieldPreimage(v)
    ensures RequestPreimage(r) != ManifestPreimage(es)
    ensures FieldPreimage(v) != ManifestPreimage(es)
  {
    EventMembersClean(env, c);
    RequestMembersClean(r);
    ManifestClean(es);
    LitPairFree("value");
    var field := [Member(Lit("value"), v)];
    var manifest := [Member(Lit("entries"), Arr(EntryItems(es)))];
    DifferentSizes(EventMembers(env, c), RequestMembers(r));
    DifferentSizes(EventMembers(env, c), field);
    DifferentSizes(EventMembers(env, c), manifest);
    DifferentSizes(RequestMembers(r), field);
    DifferentSizes(RequestMembers(r), manifest);
    CanonicalizeInjective(Obj(field), Obj(manifest));
    DictForgetsOnlyOrder(field, manifest);
    assert |Lit("value")| != |Lit("entries")|;
    assert field[0].key == Lit("value") && manifest[0].key == Lit("entries");
    assert HasKey(field, Lit("value")) && !HasKey(manifest, Lit("value"));
  }

  // ----- hash functions for the log -----

  /** The hash functions the rest of the service uses. */
  datatype Digests = Digests(content: Content -> Text, request: Request -> Text, field: Json -> Text)

  function ServiceDigests(env: Env): Digests {
    Digests(
      c => ComputeEventHash(env, c),
      r => ComputeRequestFingerprint(env, r),
      v => HashFieldValue(env, v))
  }

  /** SHA-256 does not collide on these inputs. */
  ghost predicate CollisionFree(sha256: string -> Text, inputs: set<string>) {
    forall a, b :: a in inputs && b in inputs && sha256(a) == sha256(b) ==> a == b
  }

  /** Without collisions on the preimages of these contents, their hashes tell them apart. */
  lemma EventHashFaithful(env: Env, contents: set<Content>)
    requires FaithfulClock(env)
    requires forall c :: c in contents ==> CleanContent(c)
    requires CollisionFree(env.sha256, set c | c in contents :: EventPreimage(env, c))
    ensures Faithful(ServiceDigests(env).content, contents)
  {
    forall c, c' | c in contents && c' in contents
      && ServiceDigests(env).content(c) == ServiceDigests(env).content(c')
      ensures Canon(c) == Canon(c')
    {
      EventPreimageInjective(env, c, c');
    }
  }

  /** The event hash does not see the order of the payload's dicts. */
  lemma EventHashRespectsOrder(env: Env, c: Content, c': Content)
    requires Canon(c) == Canon(c')
    ensures ComputeEventHash(env, c) == ComputeEventHash(env, c')
  {
    EventMembersDetermined(env, c, c');
  }

  // ----- which documents the hashes are over -----

  /** What reading the canonical bytes of a dict gives: the same entries, each value in key order,
      the keys in ascending order. */
  ghost predicate Reads(bytes: string, d: Dict, e: Dict) {
    && bytes == Dumps(Obj(e)) && Ascii(bytes)
    && Read(bytes) == Some(Obj(e))
    && |e| == |d|
    && (forall i, j :: 0 <= i < j < |e| ==> Before(e[i].key, e[j].key))
    && (forall i :: 0 <= i < |d| ==> Lookup(e, d[i].key) == Some(Normalize(d[i].value)))
  }

  lemma DocumentRead(d: Dict)
    requires CleanDict(d) && DistinctKeys(d)
    ensures Reads(Canonicalize(Obj(d)), d, NormalizeDict(d))
  {
    var e := NormalizeDict(d);
    CanonicalRoundTrip(Obj(d));
    DumpsAscii(Obj(e));
    SortMembersStrict(NormalizeMembers(d));
    SortMembersLength(NormalizeMembers(d));
    forall i | 0 <= i < |d|
      ensures Lookup(e, d[i].key) == Some(Normalize(d[i].value))
    {
      LookupNormalizeDict(d, d[i].key);
      LookupAt(d, i);
    }
  }

  /** The six entries of what a caller controls. */
  ghost predicate HoldsRequest(e: Dict, r: Request) {
    && Lookup(e, Lit("tenantId")) == Some(Str(r.tenantId))
    && Lookup(e, Lit("eventType")) == Some(Str(r.eventType))
    && Lookup(e, Lit("actorId")) == Some(Str(r.actorId))
    && Lookup(e, Lit("resourceType")) == Some(Str(r.resourceType))
    && Lookup(e, Lit("resourceId")) == Some(Str(r.resourceId))
    && Lookup(e, Lit("payload")) == Some(Normalize(Obj(r.payload)))
  }

  lemma EntryAt(d: Dict, e: Dict, bytes: string, i: nat, key: string, value: Json)
    requires Reads(bytes, d, e) && i < |d| && d[i] == Member(Lit(key), value)
    ensures Lookup(e, Lit(key)) == Some(Normalize(value))
  {
    assert Lookup(e, d[i].key) == Some(Normalize(d[i].value));
  }

  lemma RequestEntries(e: Dict, r: Request)
    requires forall i :: 0 <= i < 6 ==>
               Lookup(e, RequestMembers(r)[i].key) == Some(Normalize(RequestMembers(r)[i].value))
    ensures HoldsRequest(e, r)
  {
    var m := RequestMembers(r);
    assert m[0].key == Lit("tenantId") && m[1].key == Lit("eventType") && m[2].key == Lit("actorId");
    assert m[3].key == Lit("resourceType") && m[4].key == Lit("resourceId") && m[5].key == Lit("payload");
  }

  lemma ReadRequest(d: Dict, e: Dict, bytes: string, r: Request)
    requires Reads(bytes, d, e) && |d| >= 6 && d[..6] == RequestMembers(r)
    ensures HoldsRequest(e, r)
  {
    forall i | 0 <= i < 6
      ensures Lookup(e, RequestMembers(r)[i].key) == Some(Normalize(RequestMembers(r)[i].value))
    {
      assert d[i] == d[..6][i];
    }
    RequestEntries(e, r);
  }

  /** `event_hash` is the hash of the compact rendering of a document with exactly eight entries, in
      key order: what the caller controls, the instant and the previous hash. */
  lemma EventDocument(env: Env, c: Content) returns (bytes: string, e: Dict)
    requires FaithfulClock(env) && CleanContent(c)
    ensures ServiceDigests(env).content(c) == env.sha256(bytes)
    ensures bytes == Dumps(Obj(e)) && Read(bytes) == Some(Obj(e)) && |e| == 8
    ensures forall i, j :: 0 <= i < j < 8 ==> Before(e[i].key, e[j].key)
    ensures HoldsRequest(e, c.request)
    ensures Lookup(e, Lit("timestamp")) == Some(Str(env.isoformat(c.timestamp)))
    ensures Lookup(e, Lit("previousHash")) == Some(Str(c.previousHash))
  {
    var d := EventMembers(env, c);
    bytes, e := EventPreimage(env, c), NormalizeDict(d);
    EventMembersClean(env, c);
    EventMembersDistinct(env, c);
    DocumentRead(d);
    ReadRequest(d, e, bytes, c.request);
    EntryAt(d, e, bytes, 6, "timestamp", Str(Instant(env, c.timestamp)));
    EntryAt(d, e, bytes, 7, "previousHash", Str(c.previousHash));
  }

  /** A fingerprint is the hash of the document with exactly the six entries a caller controls. */
  lemma RequestDocument(env: Env, r: Request) returns (bytes: string, e: Dict)
    requires CleanRequest(r)
    ensures ServiceDigests(env).request(r) == env.sha256(bytes)
    ensures bytes == Dumps(Obj(e)) && Read(bytes) == Some(Obj(e)) && |e| == 6
    ensures forall i, j :: 0 <= i < j < 6 ==> Before(e[i].key, e[j].key)
    ensures HoldsRequest(e, r)
  {
    var d := RequestMembers(r);
    bytes, e := RequestPreimage(r), NormalizeDict(d);
    RequestMembersClean(r);
    RequestMembersDistinct(r);
    DocumentRead(d);
    ReadRequest(d, e, bytes, r);
  }

  /** A field hash is the hash of the document `{"value": ...}`. */
  lemma FieldDocument(env: Env, v: Json) returns (bytes: string)
    requires Clean(v)
    ensures ServiceDigests(env).field(v) == env.sha256(bytes)
    ensures bytes == Dumps(Obj([Member(Lit("value"), Normalize(v))]))
    ensures Read(bytes) == Some(Obj([Member(Lit("value"), Normalize(v))]))
  {
    var d := [Member(Lit("value"), v)];
    bytes := FieldPreimage(v);
    LitPairFree("value");
    DocumentRead(d);
    assert NormalizeDict(d) == [Member(Lit("value"), Normalize(v))];
  }

  /** A manifest hash is the hash of the document `{"entries": [...]}`, whose items hold the id and
      the hash of each record and nothing else, in the order of the records. */
  lemma ManifestDocument(env: Env, entries: seq<ManifestEntry>) returns (bytes: string, items: seq<Json>)
    requires forall i :: 0 <= i < |entries| ==> PairFree(entries[i].eventHash)
    ensures ComputeManifestHash(env, entries) == env.sha256(bytes)
    ensures bytes == Dumps(Obj([Member(Lit("entries"), Arr(items))]))
    ensures Read(bytes) == Some(Obj([Member(Lit("entries"), Arr(items))]))
    ensures |items| == |entries|
    ensures forall i :: 0 <= i < |items| ==>
              && items[i].Obj? && |items[i].members| == 2
              && Before(items[i].members[0].key, items[i].members[1].key)
              && Lookup(items[i].members, Lit("id")) == Some(Num(entries[i].id))
              && Lookup(items[i].members, Lit("eventHash")) == Some(Str(entries[i].eventHash))
  {
    var all := EntryItems(entries);
    var d := [Member(Lit("entries"), Arr(all))];
    bytes, items := ManifestPreimage(entries), NormalizeItems(all);
    ManifestClean(entries);
    DocumentRead(d);
    assert NormalizeDict(d) == [Member(Lit("entries"), Arr(items))];
    forall i | 0 <= i < |items|
      ensures items[i] == Obj(NormalizeDict(EntryMembers(entries[i])))
      ensures var e := NormalizeDict(EntryMembers(entries[i])); |e| == 2 && Before(e[0].key, e[1].key)
      ensures Lookup(NormalizeDict(EntryMembers(entries[i])), Lit("id")) == Some(Num(entries[i].id))
      ensures Lookup(NormalizeDict(EntryMembers(entries[i])), Lit("eventHash")) == Some(Str(entries[i].eventHash))
    {
      EntryRead(entries[i]);
    }
  }

  lemma EntryMembersDistinct(entry: ManifestEntry)
    ensures DistinctKeys(EntryMembers(entry))
  {
    assert |Lit("id")| != |Lit("eventHash")|;
  }

  lemma EntryRead(entry: ManifestEntry)
    ensures var e := NormalizeDict(EntryMembers(entry));
            && |e| == 2 && Before(e[0].key, e[1].key)
            && Lookup(e, Lit("id")) == Some(Num(entry.id))
            && Lookup(e, Lit("eventHash")) == Some(Str(entry.eventHash))
  {
    var d := EntryMembers(entry);
    EntryMembersDistinct(entry);
    SortMembersLength(NormalizeMembers(d));
    SortMembersStrict(NormalizeMembers(d));
    LookupAt(d, 0);
    LookupAt(d, 1);
    LookupNormalizeDict(d, d[0].key);
    LookupNormalizeDict(d, d[1].key);
  }
}
