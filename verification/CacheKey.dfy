/**
  The Redis key space of internal/cache/service.go. SHA-256 is any function whose hexadecimal
  digests all have the same length and contain no colon; that two given texts do not collide
  is stated where it is used.
*/
module CacheKey {

  type Hash = string -> string

  const DIGEST_LENGTH: nat := 64

  ghost predicate Digests(hash: Hash) {
    forall s :: |hash(s)| == DIGEST_LENGTH && ':' !in hash(s)
  }

  /** The text that is hashed. */
  function Preimage(org: string, query: string): string {
    org + "\n" + query
  }

  predicate NoCollision(hash: Hash, s: string, t: string) {
    hash(s) == hash(t) ==> s == t
  }

  function Key(hash: Hash, org: string, query: string): string {
    "igw:v1:" + org + ":" + hash(Preimage(org, query))
  }

  function LockKey(key: string): string {
    key + ":lock"
  }

  lemma SplitFromEnd(a: string, d: string, b: string, e: string)
    requires a + d == b + e && |d| == |e|
    ensures a == b && d == e
  {
    var s, t := a + d, b + e;
    assert |a| == |b|;
    assert a == s[..|a|] && b == t[..|b|];
    assert d == s[|a|..] && e == t[|b|..];
  }

  /**
    Two keys are equal only for the same organisation and query, even when an organisation
    contains ':' or a newline, as long as the two hashed texts do not collide.
  */
  lemma KeyInjective(hash: Hash, org: string, query: string, org': string, query': string)
    requires Digests(hash) && NoCollision(hash, Preimage(org, query), Preimage(org', query'))
    ensures Key(hash, org, query) == Key(hash, org', query') <==> org == org' && query == query'
  {
    if Key(hash, org, query) == Key(hash, org', query') {
      var s, t := Preimage(org, query), Preimage(org', query');
      SplitFromEnd("igw:v1:" + org + ":", hash(s), "igw:v1:" + org' + ":", hash(t));
      SplitFromEnd("igw:v1:" + org, ":", "igw:v1:" + org', ":");
      assert org == ("igw:v1:" + org)[7..] && org' == ("igw:v1:" + org')[7..];
      assert query == s[|org| + 1..] && query' == t[|org'| + 1..];
    }
  }

  lemma LockKeyInjective(a: string, b: string)
    requires LockKey(a) == LockKey(b)
    ensures a == b
  {
    SplitFromEnd(a, ":lock", b, ":lock");
  }

  /** No lock is stored where a value is looked up: a lock token is never read as a payload. */
  lemma LockKeyIsNoKey(hash: Hash, key: string, org: string, query: string)
    requires Digests(hash)
    ensures LockKey(key) != Key(hash, org, query)
  {
    var d, k, l := hash(Preimage(org, query)), Key(hash, org, query), LockKey(key);
    assert k[|k| - 5] == d[|d| - 5];
    assert l[|l| - 5] == ':';
  }
}
