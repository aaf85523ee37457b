/**
  Preparing one EC2 query request (`EC2Client.prototype.call` up to the
  request body) and its signature (`EC2Client.prototype.sign`): the
  credential check, the six protocol fields, and the canonical string the
  HMAC is taken over. The HMAC-SHA256 digest with its base64 encoding and
  the form encoder `qs.stringify` are parameters of the model.
 */
module Signing {
  import opened Wrappers
  import opened JsObject
  import opened KeyOrder
  import opened Expansion

  const ApiVersion := "2009-11-30"
  const HmacSha256 := "HmacSHA256"
  const SignatureVersion2 := "2"

  /** The fields of an `EC2Client` the request depends on; the credentials may be unset. */
  datatype Client = Client(host: string, accessKeyId: Option<string>, secretAccessKey: Option<string>)

  /** What `call` throws when a credential is unset. */
  datatype CallError = MissingCredentials

  /** `crypto.createHmac("sha256", secret).update(message).digest("base64")`, as a function of (secret, message). */
  type Hmac = (string, string) -> string

  /** `qs.stringify`: the form encoding of an object's properties in enumeration order. */
  type Stringify = Obj -> string

  lemma SortedKeysPresent(query: Obj)
    ensures forall x :: x in Sort(KeysOf(query)) ==> x in ToMap(query)
  {
    forall x | x in Sort(KeysOf(query)) ensures x in KeySet(query) {
      assert x in multiset(Sort(KeysOf(query)));
      assert x in multiset(KeysOf(query));
      var i :| 0 <= i < |query| && KeysOf(query)[i] == x;
      assert query[i] in query;
    }
  }

  /** The properties of `query` named by `ks`, in the order of `ks`. */
  function Entries(query: Obj, ks: seq<string>): Obj
    requires forall x :: x in ks ==> x in ToMap(query)
  {
    seq(|ks|, i requires 0 <= i < |ks| => (ks[i], ToMap(query)[ks[i]]))
  }

  lemma EntriesSnoc(query: Obj, ks: seq<string>, n: nat)
    requires forall x :: x in ks ==> x in ToMap(query)
    requires n < |ks|
    ensures Entries(query, ks[..n + 1]) == Entries(query, ks[..n]) + [(ks[n], ToMap(query)[ks[n]])]
  {
  }

  /** The object `sign` builds: the query's properties in ascending key order. */
  function SortedEntries(query: Obj): Obj
  {
    SortedKeysPresent(query);
    Entries(query, Sort(KeysOf(query)))
  }

  /** The canonical string the signature is the HMAC of. */
  function StringToSign(host: string, query: Obj, stringify: Stringify): string
  {
    "POST" + "\n" + host + "\n" + "/" + "\n" + stringify(SortedEntries(query))
  }

  lemma KeysDistinct(o: Obj)
    requires DistinctKeys(o)
    ensures Distinct(KeysOf(o))
  {
  }

  lemma SortedEntriesKeys(query: Obj)
    ensures KeysOf(SortedEntries(query)) == Sort(KeysOf(query))
    ensures |SortedEntries(query)| == |query|
  {
  }

  /** The sorted copy has the same properties as the query, each once, in strictly ascending key order. */
  lemma SortedEntriesSpec(query: Obj)
    requires DistinctKeys(query)
    ensures |SortedEntries(query)| == |query|
    ensures StrictlySorted(KeysOf(SortedEntries(query)))
    ensures DistinctKeys(SortedEntries(query))
    ensures ToMap(SortedEntries(query)) == ToMap(query)
  {
    var r := SortedEntries(query);
    var ks := Sort(KeysOf(query));
    SortedEntriesKeys(query);
    KeysDistinct(query);
    SortDistinct(KeysOf(query));
    assert DistinctKeys(r) by {
      forall i, j | 0 <= i < j < |r| ensures r[i].0 != r[j].0 {
        assert KeysOf(r)[i] == r[i].0 && KeysOf(r)[j] == r[j].0;
        LessIrreflexive(ks[i]);
      }
    }
    SortedEntriesMap(query, r);
  }

  lemma SortedEntriesMap(query: Obj, r: Obj)
    requires r == SortedEntries(query) && DistinctKeys(r)
    ensures ToMap(r) == ToMap(query)
  {
    forall x | x in ToMap(r) ensures x in ToMap(query) && ToMap(r)[x] == ToMap(query)[x] {
      SortedEntriesValue(query, r, x);
    }
    forall x | x in ToMap(query) ensures x in ToMap(r) {
      SortedEntriesHasKey(query, x);
    }
  }

  lemma SortedEntriesValue(query: Obj, r: Obj, x: string)
    requires r == SortedEntries(query) && DistinctKeys(r) && x in KeySet(r)
    ensures x in ToMap(query) && ToMap(r)[x] == ToMap(query)[x]
  {
    var p :| p in r && p.0 == x;
    var i :| 0 <= i < |r| && r[i] == p;
    var ks := Sort(KeysOf(query));
    SortedKeysPresent(query);
    assert r[i] == (ks[i], ToMap(query)[ks[i]]);
    ToMapAt(r, i);
  }

  lemma SortedEntriesHasKey(query: Obj, x: string)
    requires x in KeySet(query)
    ensures x in KeySet(SortedEntries(query))
  {
    var r := SortedEntries(query);
    var ks := Sort(KeysOf(query));
    SortedEntriesKeys(query);
    var p :| p in query && p.0 == x;
    var i :| 0 <= i < |query| && query[i] == p;
    assert KeysOf(query)[i] == x;
    assert x in multiset(KeysOf(query));
    assert x in multiset(ks);
    var j :| 0 <= j < |ks| && ks[j] == x;
    assert KeysOf(r)[j] == x;
    assert r[j] in r;
  }

  /**
    The sorted copy, and hence the canonical string, depends only on the
    key/value set of the query, not on the order its properties were added
    in; and queries with different key/value sets have different sorted copies.
   */
  lemma SortedEntriesCanonical(q1: Obj, q2: Obj)
    requires DistinctKeys(q1) && DistinctKeys(q2)
    ensures SortedEntries(q1) == SortedEntries(q2) <==> ToMap(q1) == ToMap(q2)
  {
    SortedEntriesSpec(q1);
    SortedEntriesSpec(q2);
    if ToMap(q1) == ToMap(q2) {
      KeysOfKeySet(q1);
      KeysOfKeySet(q2);
      KeysDistinct(q1);
      KeysDistinct(q2);
      DistinctSameSet(KeysOf(q1), KeysOf(q2));
      SortedUnique(Sort(KeysOf(q1)), Sort(KeysOf(q2)));
    }
  }

  lemma StringToSignDeterministic(host: string, q1: Obj, q2: Obj, stringify: Stringify)
    requires DistinctKeys(q1) && DistinctKeys(q2) && ToMap(q1) == ToMap(q2)
    ensures StringToSign(host, q1, stringify) == StringToSign(host, q2, stringify)
  {
    SortedEntriesCanonical(q1, q2);
  }

  /** `sign`: collects the keys, sorts them, copies the properties in that order, and takes the HMAC of the canonical string. */
  method Sign(c: Client, query: Obj, hmac: Hmac, stringify: Stringify) returns (signature: string)
    requires c.secretAccessKey.Some?
    requires DistinctKeys(query)
    ensures signature == hmac(c.secretAccessKey.value, StringToSign(c.host, query, stringify))
  {
    var keys: seq<string> := [];
    for i := 0 to |query|
      invariant keys == KeysOf(query)[..i]
    {
      keys := keys + [query[i].0];
    }
    assert keys == KeysOf(query);
    keys := Sort(keys);
    SortedKeysPresent(query);
    var sorted: Obj := [];
    for n := 0 to |keys|
      invariant sorted == Entries(query, keys[..n])
    {
      var key := keys[n];
      SortedPrefixFresh(query, n);
      EntriesSnoc(query, keys, n);
      sorted := Put(sorted, key, ToMap(query)[key]);
    }
    assert keys[..|keys|] == keys;
    var stringToSign := "POST" + "\n" + c.host + "\n" + "/" + "\n" + stringify(sorted);
    signature := hmac(c.secretAccessKey.value, stringToSign);
  }

  /** The key `sign` copies at step n is not among those copied before it. */
  lemma SortedPrefixFresh(query: Obj, n: nat)
    requires DistinctKeys(query) && n < |query|
    ensures forall x :: x in Sort(KeysOf(query)) ==> x in ToMap(query)
    ensures Sort(KeysOf(query))[n] !in KeySet(Entries(query, Sort(KeysOf(query))[..n]))
  {
    var ks := Sort(KeysOf(query));
    SortedKeysPresent(query);
    var pre := Entries(query, ks[..n]);
    KeysDistinct(query);
    SortDistinct(KeysOf(query));
    forall p | p in pre ensures p.0 != ks[n] {
      var j :| 0 <= j < n && pre[j] == p;
      assert Less(ks[j], ks[n]);
      LessIrreflexive(ks[n]);
    }
  }

  /** The six fields `call` sets on every request, whatever the caller passed under those names. */
  function ProtocolFields(action: string, accessKeyId: string, timestamp: string): map<string, Value>
  {
    map["Action" := Scalar(action), "Version" := Scalar(ApiVersion), "AWSAccessKeyId" := Scalar(accessKeyId),
        "Timestamp" := Scalar(timestamp), "SignatureMethod" := Scalar(HmacSha256),
        "SignatureVersion" := Scalar(SignatureVersion2)]
  }

  /** The expanded query with the protocol fields assigned over it. */
  function Augmented(exp: Obj, action: string, accessKeyId: string, timestamp: string): (q: Obj)
    ensures ToMap(q) == ToMap(exp) + ProtocolFields(action, accessKeyId, timestamp)
    ensures DistinctKeys(exp) ==> DistinctKeys(q)
  {
    var q1 := Put(exp, "Action", Scalar(action));
    var q2 := Put(q1, "Version", Scalar(ApiVersion));
    var q3 := Put(q2, "AWSAccessKeyId", Scalar(accessKeyId));
    var q4 := Put(q3, "Timestamp", Scalar(timestamp));
    var q5 := Put(q4, "SignatureMethod", Scalar(HmacSha256));
    var q6 := Put(q5, "SignatureVersion", Scalar(SignatureVersion2));
    PutToMap(exp, "Action", Scalar(action));
    PutToMap(q1, "Version", Scalar(ApiVersion));
    PutToMap(q2, "AWSAccessKeyId", Scalar(accessKeyId));
    PutToMap(q3, "Timestamp", Scalar(timestamp));
    PutToMap(q4, "SignatureMethod", Scalar(HmacSha256));
    PutToMap(q5, "SignatureVersion", Scalar(SignatureVersion2));
    ProtocolFieldsUpdates(ToMap(exp), action, accessKeyId, timestamp);
    PutDistinct(exp, "Action", Scalar(action));
    PutDistinct(q1, "Version", Scalar(ApiVersion));
    PutDistinct(q2, "AWSAccessKeyId", Scalar(accessKeyId));
    PutDistinct(q3, "Timestamp", Scalar(timestamp));
    PutDistinct(q4, "SignatureMethod", Scalar(HmacSha256));
    PutDistinct(q5, "SignatureVersion", Scalar(SignatureVersion2));
    q6
  }

  lemma ProtocolFieldsUpdates(m: map<string, Value>, action: string, accessKeyId: string, timestamp: string)
    ensures m["Action" := Scalar(action)]["Version" := Scalar(ApiVersion)]["AWSAccessKeyId" := Scalar(accessKeyId)]
             ["Timestamp" := Scalar(timestamp)]["SignatureMethod" := Scalar(HmacSha256)]
             ["SignatureVersion" := Scalar(SignatureVersion2)]
            == m + ProtocolFields(action, accessKeyId, timestamp)
  {
  }

  /** The complete request parameters of a call with both credentials set. */
  function SignedQuery(c: Client, action: string, query: Obj, timestamp: string, hmac: Hmac, stringify: Stringify): Obj
    requires c.secretAccessKey.Some? && c.accessKeyId.Some?
  {
    var base := Augmented(Expanded(query), action, c.accessKeyId.value, timestamp);
    Put(base, "Signature", Scalar(hmac(c.secretAccessKey.value, StringToSign(c.host, base, stringify))))
  }

  /**
    `call` up to the request body: throws when a credential is unset, else
    expands the query, assigns the protocol fields, and assigns `Signature`
    last, computed over everything assigned before it.
   */
  method Call(c: Client, action: string, query: Obj, timestamp: string, hmac: Hmac, stringify: Stringify)
    returns (r: Result<Obj, CallError>)
    ensures r.Failure? <==> c.secretAccessKey.None? || c.accessKeyId.None?
    ensures r.Failure? ==> r.error == MissingCredentials
    ensures r.Success? ==> r.value == SignedQuery(c, action, query, timestamp, hmac, stringify)
  {
    if c.secretAccessKey.None? || c.accessKeyId.None? {
      return Failure(MissingCredentials);
    }
    var q := Expand(query);
    q := Put(q, "Action", Scalar(action));
    q := Put(q, "Version", Scalar(ApiVersion));
    q := Put(q, "AWSAccessKeyId", Scalar(c.accessKeyId.value));
    q := Put(q, "Timestamp", Scalar(timestamp));
    q := Put(q, "SignatureMethod", Scalar(HmacSha256));
    q := Put(q, "SignatureVersion", Scalar(SignatureVersion2));
    assert q == Augmented(Expanded(query), action, c.accessKeyId.value, timestamp);
    var signature := Sign(c, q, hmac, stringify);
    q := Put(q, "Signature", Scalar(signature));
    return Success(q);
  }

  /**
    The request parameters: the expanded query, overridden by the six
    protocol fields, plus `Signature`, the HMAC of the canonical string of
    exactly those parameters (including a `Signature` the caller passed).
   */
  lemma SignedQueryFields(c: Client, action: string, query: Obj, timestamp: string, hmac: Hmac, stringify: Stringify)
    requires c.secretAccessKey.Some? && c.accessKeyId.Some?
    ensures var base := Augmented(Expanded(query), action, c.accessKeyId.value, timestamp);
      && ToMap(base) == ToMap(Expanded(query)) + ProtocolFields(action, c.accessKeyId.value, timestamp)
      && ToMap(SignedQuery(c, action, query, timestamp, hmac, stringify))
         == ToMap(base)["Signature" := Scalar(hmac(c.secretAccessKey.value, StringToSign(c.host, base, stringify)))]
      && DistinctKeys(SignedQuery(c, action, query, timestamp, hmac, stringify))
  {
    var base := Augmented(Expanded(query), action, c.accessKeyId.value, timestamp);
    var sig := Scalar(hmac(c.secretAccessKey.value, StringToSign(c.host, base, stringify)));
    PutToMap(base, "Signature", sig);
    PutDistinct(base, "Signature", sig);
  }

  /** Two queries that expand to the same key/value set yield the same request parameters, signature included. */
  lemma SignedQueryOrderIndependent(c: Client, action: string, q1: Obj, q2: Obj, timestamp: string, hmac: Hmac, stringify: Stringify)
    requires c.secretAccessKey.Some? && c.accessKeyId.Some?
    requires ToMap(Expanded(q1)) == ToMap(Expanded(q2))
    ensures ToMap(SignedQuery(c, action, q1, timestamp, hmac, stringify)) == ToMap(SignedQuery(c, action, q2, timestamp, hmac, stringify))
  {
    var b1 := Augmented(Expanded(q1), action, c.accessKeyId.value, timestamp);
    var b2 := Augmented(Expanded(q2), action, c.accessKeyId.value, timestamp);
    StringToSignDeterministic(c.host, b1, b2, stringify);
    SignedQueryFields(c, action, q1, timestamp, hmac, stringify);
    SignedQueryFields(c, action, q2, timestamp, hmac, stringify);
  }
}
