/** Namespaced cache keys and their purge by group. */
module RedisCache {
  import opened Options

  const PRODUCTS := "products"
  const ORDERS := "orders"
  const AUTH := "auth"

  /** The namespaces each invalidation group purges. */
  const GROUPS: map<string, seq<string>> := map[
    "products" := [PRODUCTS],
    "orders" := [ORDERS],
    "auth" := [AUTH],
    "productMutation" := [PRODUCTS, ORDERS],
    "orderMutation" := [ORDERS, PRODUCTS],
    "authMutation" := [AUTH]
  ]

  /** What the keys of a namespace start with: the pattern of a scan is this followed by `*`. */
  function KeyStart(prefix: string, namespace: string): string {
    prefix + ":" + namespace + ":"
  }

  function BuildCacheKey(prefix: string, namespace: string, scope: string, path: string): string {
    KeyStart(prefix, namespace) + scope + ":" + path
  }

  predicate InNamespaces(prefix: string, namespaces: seq<string>, key: string) {
    exists i :: 0 <= i < |namespaces| && KeyStart(prefix, namespaces[i]) <= key
  }

  function Purged<V>(entries: map<string, V>, prefix: string, namespaces: seq<string>): map<string, V> {
    map key | key in entries && !InNamespaces(prefix, namespaces, key) :: entries[key]
  }

  // ---- Keys are unambiguous

  lemma {:induction false} MarkInside(a: string, b: string, c: string, d: string, mark: char)
    requires |a| < |c| && a + [mark] + b == c + [mark] + d
    ensures c[|a|] == mark
  {
    assert (a + [mark] + b)[|a|] == mark;
  }

  lemma {:induction false} SplitAtMark(a: string, b: string, c: string, d: string, mark: char)
    requires mark !in a && mark !in c && a + [mark] + b == c + [mark] + d
    ensures a == c && b == d
  {
    var s, t := a + [mark] + b, c + [mark] + d;
    if |a| < |c| {
      MarkInside(a, b, c, d, mark);
      assert false;
    } else if |c| < |a| {
      MarkInside(c, d, a, b, mark);
      assert false;
    } else {
      assert s[..|a|] == a && t[..|c|] == c;
      assert s[|a| + 1..] == b && t[|c| + 1..] == d;
    }
  }

  /** Cache keys are injective when namespaces contain no ':', scopes no '/' and paths start with '/';
      scopes may contain ':', as IPv6 addresses do. */
  lemma {:induction false} KeysAreInjective(
      prefix: string, n: string, s: string, p: string, n': string, s': string, p': string)
    requires ':' !in n && ':' !in n' && '/' !in s && '/' !in s'
    requires p != "" && p[0] == '/' && p' != "" && p'[0] == '/'
    requires BuildCacheKey(prefix, n, s, p) == BuildCacheKey(prefix, n', s', p')
    ensures n == n' && s == s' && p == p'
  {
    var k, k' := BuildCacheKey(prefix, n, s, p), BuildCacheKey(prefix, n', s', p');
    var rest, rest' := s + ":" + p, s' + ":" + p';
    assert k == (prefix + ":") + (n + [':'] + rest);
    assert k' == (prefix + ":") + (n' + [':'] + rest');
    assert k[|prefix| + 1..] == n + [':'] + rest;
    assert k'[|prefix| + 1..] == n' + [':'] + rest';
    SplitAtMark(n, rest, n', rest', ':');
    assert rest == (s + ":") + ['/'] + p[1..];
    assert rest' == (s' + ":") + ['/'] + p'[1..];
    SplitAtMark(s + ":", p[1..], s' + ":", p'[1..], '/');
    assert (s + ":")[..|s|] == s && (s' + ":")[..|s'|] == s';
    assert p == ['/'] + p[1..] && p' == ['/'] + p'[1..];
  }

  lemma {:induction false} KeyInItsNamespace(
      prefix: string, n: string, scope: string, path: string, namespaces: seq<string>)
    requires ':' !in n && forall i :: 0 <= i < |namespaces| ==> ':' !in namespaces[i]
    ensures InNamespaces(prefix, namespaces, BuildCacheKey(prefix, n, scope, path)) <==> n in namespaces
  {
    var key := BuildCacheKey(prefix, n, scope, path);
    assert KeyStart(prefix, n) <= key;
    forall i | 0 <= i < |namespaces| && KeyStart(prefix, namespaces[i]) <= key
      ensures namespaces[i] == n
    {
      var m := namespaces[i];
      var more := key[|KeyStart(prefix, m)|..];
      assert key == KeyStart(prefix, m) + more;
      assert key[|prefix| + 1..] == m + [':'] + more;
      assert key[|prefix| + 1..] == n + [':'] + (scope + ":" + path);
      SplitAtMark(m, more, n, scope + ":" + path, ':');
    }
  }

  /** Which namespaces an invalidation group is there to purge. */
  predicate PurgesNamespace(group: string, namespace: string) {
    || (namespace == "products" && group in {"products", "productMutation", "orderMutation"})
    || (namespace == "orders" && group in {"orders", "productMutation", "orderMutation"})
    || (namespace == "auth" && group in {"auth", "authMutation"})
  }

  lemma {:induction false} GroupsPurgeTheirNamespaces(group: string, n: string)
    ensures GROUPS.Keys == {"products", "orders", "auth", "productMutation", "orderMutation", "authMutation"}
    ensures group in GROUPS ==> (n in GROUPS[group] <==> PurgesNamespace(group, n))
    ensures group in GROUPS ==> forall i :: 0 <= i < |GROUPS[group]| ==> ':' !in GROUPS[group][i]
  {
  }

  /** Of the keys that were ever built, a purge takes away exactly those of the namespaces of its group. */
  lemma {:induction false} PurgeIsExact<V>(
      entries: map<string, V>, prefix: string, group: string, n: string, scope: string, path: string)
    requires group in GROUPS && ':' !in n
    ensures var key, left := BuildCacheKey(prefix, n, scope, path), Purged(entries, prefix, GROUPS[group]);
      && (key in left <==> key in entries && !PurgesNamespace(group, n))
      && (key in left ==> left[key] == entries[key])
  {
    GroupsPurgeTheirNamespaces(group, n);
    KeyInItsNamespace(prefix, n, scope, path, GROUPS[group]);
  }

  // ---- The store

  /** What a scan may return: only matching keys, possibly repeated or already gone, in chunks;
      and either every matching key or none at all. Empty strings may occur among them. */
  ghost predicate FaithfulScan(scan: (set<string>, string) -> seq<seq<string>>) {
    forall keys: set<string>, start: string ::
      && (forall key :: Scanned(scan(keys, start), key) && key != "" ==> start <= key)
      && ((forall key :: key in keys && start <= key && key != "" ==> Scanned(scan(keys, start), key))
          || (forall key :: Scanned(scan(keys, start), key) ==> key == ""))
  }

  predicate Scanned(chunks: seq<seq<string>>, key: string) {
    exists i :: 0 <= i < |chunks| && key in chunks[i]
  }

  /** `JSON.stringify`, and `JSON.parse` with its failures. */
  datatype Json<!V> = Json(stringify: V -> string, parse: string -> Option<V>)

  ghost predicate Lawful<V(!new)>(json: Json<V>) {
    forall v: V :: json.stringify(v) != "" && json.parse(json.stringify(v)) == Some(v)
  }

  /** What `getCache` can find among the stored texts. */
  function Decoded<V>(json: Json<V>, texts: map<string, string>): map<string, V> {
    map key | key in texts && texts[key] != "" && json.parse(texts[key]).Some? :: json.parse(texts[key]).value
  }

  class RedisStore<V(!new)> {
    var texts: map<string, string>
    var ready: bool
    const prefix: string
    const json: Json<V>

    constructor (prefix: string, json: Json<V>)
      ensures this.prefix == prefix && this.json == json && texts == map[] && ready
    {
      this.prefix, this.json, texts, ready := prefix, json, map[], true;
    }

    /** The values behind the stored texts. */
    function Contents(): map<string, V>
      reads this
    {
      Decoded(json, texts)
    }

    method Get(key: string) returns (v: Option<V>)
      ensures v == if ready && key in Contents() then Some(Contents()[key]) else None
    {
      if !ready || key !in texts || texts[key] == "" {
        return None;
      }
      v := json.parse(texts[key]);
    }

    /** Whatever is stored is found again, and nothing else changes. */
    method SetEx(key: string, value: V)
      requires Lawful(json)
      modifies this
      ensures ready == old(ready)
      ensures Contents() == if ready then old(Contents())[key := value] else old(Contents())
    {
      if ready {
        texts := texts[key := json.stringify(value)];
      }
    }

    /** Removes one key and returns how many keys went. */
    method DeleteCacheKey(key: string) returns (n: Option<nat>)
      modifies this
      ensures texts == (if old(ready) then old(texts) - {key} else old(texts)) && ready == old(ready)
      ensures n == if old(ready) then Some(|old(texts)| - |texts|) else None
    {
      if !ready {
        return None;
      }
      RemoveOne(texts, key);
      n := Some(if key in texts then 1 else 0);
      texts := texts - {key};
    }

    /** The `KEYS` command. */
    method Keys(start: string) returns (keys: seq<string>)
      ensures forall key :: key in keys <==> key in texts && start <= key
    {
      keys := [];
      var rest := set key | key in texts.Keys && start <= key;
      while rest != {}
        invariant forall key :: key in texts && start <= key <==> key in keys || key in rest
        decreases rest
      {
        var key :| key in rest;
        keys := keys + [key];
        rest := rest - {key};
      }
    }

    /** Scan, and fall back to `KEYS` when the scan returned nothing. */
    method CollectKeysMatching(scan: (set<string>, string) -> seq<seq<string>>, start: string)
      returns (keys: seq<string>)
      requires FaithfulScan(scan) && start != ""
      ensures forall key :: key in keys ==> start <= key
      ensures forall key :: key in texts && start <= key ==> key in keys
    {
      var chunks := scan(texts.Keys, start);
      keys := [];
      for i := 0 to |chunks|
        invariant forall key :: key in keys <==> key != "" && Scanned(chunks[..i], key)
      {
        var chunk := chunks[i];
        for j := 0 to |chunk|
          invariant forall key :: key in keys <==> key != "" && (Scanned(chunks[..i], key) || key in chunk[..j])
        {
          if chunk[j] != "" {
            keys := keys + [chunk[j]];
          }
        }
        assert chunk[..|chunk|] == chunk;
        forall key
          ensures Scanned(chunks[..i + 1], key) <==> Scanned(chunks[..i], key) || key in chunk
        {
          ScannedOneMore(chunks, i, key);
        }
      }
      assert chunks[..|chunks|] == chunks;
      if |keys| == 0 {
        keys := Keys(start);
      } else {
        assert Scanned(chunks, keys[0]);
      }
    }

    /** Purging a group removes exactly the keys of its namespaces and returns how many distinct keys that were. */
    method DeleteCache(keyOrGroup: string, scan: (set<string>, string) -> seq<seq<string>>) returns (n: Option<nat>)
      requires FaithfulScan(scan)
      modifies this
      ensures ready == old(ready)
      ensures !ready ==> texts == old(texts) && n == None
      ensures ready && keyOrGroup in GROUPS ==> forall n, scope, path | ':' !in n ::
        BuildCacheKey(prefix, n, scope, path) in texts <==>
          BuildCacheKey(prefix, n, scope, path) in old(texts) && !PurgesNamespace(keyOrGroup, n)
      ensures ready && keyOrGroup in GROUPS ==> texts == Purged(old(texts), prefix, GROUPS[keyOrGroup])
      ensures ready && keyOrGroup !in GROUPS ==> texts == old(texts) - {keyOrGroup}
      ensures ready ==> n == Some(|old(texts)| - |texts|)
      ensures ready && keyOrGroup in GROUPS ==> Contents() == Purged(old(Contents()), prefix, GROUPS[keyOrGroup])
    {
      if !ready {
        return None;
      }
      if keyOrGroup !in GROUPS {
        n := DeleteCacheKey(keyOrGroup);
        return;
      }
      var namespaces := GROUPS[keyOrGroup];
      var totalDeleted: int := 0;
      assert Purged(texts, prefix, []) == texts;
      for i := 0 to |namespaces|
        invariant ready
        invariant texts == Purged(old(texts), prefix, namespaces[..i])
        invariant totalDeleted == |old(texts)| - |texts|
      {
        var start := KeyStart(prefix, namespaces[i]);
        var keys := CollectKeysMatching(scan, start);
        ghost var before := texts;
        for j := 0 to |keys|
          invariant ready
          invariant texts == Without(before, keys[..j])
          invariant totalDeleted == |old(texts)| - |texts|
        {
          WithoutOneMore(before, keys, j);
          var deleted := DeleteCacheKey(keys[j]);
          totalDeleted := totalDeleted + if deleted.Some? then deleted.value else 0;
        }
        assert keys[..|keys|] == keys;
        PurgeOneMore(old(texts), prefix, namespaces, i, keys);
      }
      assert namespaces[..|namespaces|] == namespaces;
      PurgeShrinks(old(texts), prefix, namespaces);
      PurgeDecoded(json, old(texts), prefix, namespaces);
      n := Some(totalDeleted);
      forall m: string, scope: string, path: string | ':' !in m
        ensures BuildCacheKey(prefix, m, scope, path) in texts <==>
          BuildCacheKey(prefix, m, scope, path) in old(texts) && !PurgesNamespace(keyOrGroup, m)
      {
        PurgeIsExact(old(texts), prefix, keyOrGroup, m, scope, path);
      }
    }
  }

  /** Purging the texts purges the values. */
  lemma {:induction false} PurgeDecoded<V>(
      json: Json<V>, texts: map<string, string>, prefix: string, namespaces: seq<string>)
    ensures Decoded(json, Purged(texts, prefix, namespaces)) == Purged(Decoded(json, texts), prefix, namespaces)
  {
  }

  lemma {:induction false} ScannedOneMore(chunks: seq<seq<string>>, i: nat, key: string)
    requires i < |chunks|
    ensures Scanned(chunks[..i + 1], key) <==> Scanned(chunks[..i], key) || key in chunks[i]
  {
    var more, less := chunks[..i + 1], chunks[..i];
    if Scanned(less, key) {
      var k :| 0 <= k < |less| && key in less[k];
      assert key in more[k];
    }
    if key in chunks[i] {
      assert key in more[i];
    }
  }

  lemma {:induction false} RemoveOne<V>(entries: map<string, V>, key: string)
    ensures |entries - {key}| == |entries| - if key in entries then 1 else 0
  {
    assert (entries - {key}).Keys == entries.Keys - {key};
    assert |(entries - {key}).Keys| == |entries - {key}| && |entries.Keys| == |entries|;
  }

  ghost function Without<V>(entries: map<string, V>, keys: seq<string>): map<string, V> {
    map key | key in entries && key !in keys :: entries[key]
  }

  lemma {:induction false} WithoutOneMore<V>(entries: map<string, V>, keys: seq<string>, j: nat)
    requires j < |keys|
    ensures Without(entries, keys[..j + 1]) == Without(entries, keys[..j]) - {keys[j]}
  {
    assert keys[..j + 1] == keys[..j] + [keys[j]];
  }

  lemma {:induction false} PurgeOneMore<V>(
      entries: map<string, V>, prefix: string, namespaces: seq<string>, i: nat, keys: seq<string>)
    requires i < |namespaces|
    requires forall key :: key in keys ==> KeyStart(prefix, namespaces[i]) <= key
    requires forall key :: key in Purged(entries, prefix, namespaces[..i]) ==>
      KeyStart(prefix, namespaces[i]) <= key ==> key in keys
    ensures Without(Purged(entries, prefix, namespaces[..i]), keys) == Purged(entries, prefix, namespaces[..i + 1])
  {
    forall key
      ensures InNamespaces(prefix, namespaces[..i + 1], key) <==>
        InNamespaces(prefix, namespaces[..i], key) || KeyStart(prefix, namespaces[i]) <= key
    {
      var more, less := namespaces[..i + 1], namespaces[..i];
      if InNamespaces(prefix, less, key) {
        var k :| 0 <= k < |less| && KeyStart(prefix, less[k]) <= key;
        assert more[k] == less[k];
      }
      assert more[i] == namespaces[i];
    }
  }

  lemma {:induction false} PurgeShrinks<V>(entries: map<string, V>, prefix: string, namespaces: seq<string>)
    ensures |Purged(entries, prefix, namespaces)| <= |entries|
  {
    var p := Purged(entries, prefix, namespaces);
    assert p.Keys <= entries.Keys;
    assert entries.Keys == p.Keys + (entries.Keys - p.Keys);
    assert |p.Keys| == |p| && |entries.Keys| == |entries|;
  }
}
