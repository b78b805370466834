/** The middleware and the controllers of the list routes, with the cache in a Redis store. */
module ListServers {
  import opened Options
  import opened RedisCache
  import opened CachedLists
  import opened ListResults

  /** The list routes and mutation controllers, with the cache in a Redis store. */
  class ListServer {
    var shop: Shop
    const redis: RedisStore<ListResponse>
    const lib: Library

    /** Redis is available, and each cached list entry is what recomputing its request now returns. */
    ghost predicate Valid()
      reads this, redis
    {
      redis.ready && Lawful(redis.json) && Listed(shop) && Agrees(lib, redis.prefix, Contents())
    }

    constructor (shop: Shop, redis: RedisStore<ListResponse>, lib: Library)
      requires redis.ready && redis.texts == map[] && Lawful(redis.json) && Listed(shop)
      ensures Valid() && this.shop == shop && this.redis == redis && this.lib == lib
    {
      this.shop, this.redis, this.lib := shop, redis, lib;
    }

    function Contents(): Server
      reads this, redis
    {
      Server(shop, redis.Contents())
    }

    /** `cacheResponse` around a list handler: hit or miss, the response is what recomputing the request returns. */
    method List(r: ListRequest) returns (response: ListResponse)
      requires Valid() && WellFormedList(r)
      modifies redis
      ensures Valid() && response == View(lib, shop, r) && ListAnswer(lib, shop, r, response)
      ensures response.status >= 400 ==> redis.texts == old(redis.texts)
      ensures response.status < 400 ==>
        redis.Contents() == old(redis.Contents())[KeyOf(redis.prefix, r) := response]
      ensures shop == old(shop) && (Contents(), Some(response)) == Serve(lib, redis.prefix, old(Contents()), Read(r))
    {
      ServeKeepsAgreement(lib, redis.prefix, Contents(), Read(r));
      ViewIsAnswer(lib, shop, r);
      var key := KeyOf(redis.prefix, r);
      var cached := redis.Get(key);
      if cached.Some? {
        return cached.value;
      }
      response := View(lib, shop, r);
      if response.status < 400 {
        redis.SetEx(key, response);
      }
    }

    /** A mutation controller: run the service, and on success purge the cache before responding. No stale entry is
        left. */
    method Change(m: Mutation, scan: (set<string>, string) -> seq<seq<string>>) returns (success: bool)
      requires Valid() && FaithfulScan(scan)
      modifies this, redis
      ensures Valid() && (shop, success) == Mutate(old(shop), m) && MutationResult(old(shop), shop, m, success)
      ensures !success ==> redis.texts == old(redis.texts)
      ensures Contents() == Serve(lib, redis.prefix, old(Contents()), Write(m)).0
    {
      ServeKeepsAgreement(lib, redis.prefix, Contents(), Write(m));
      MutationMeetsItsResult(shop, m);
      MutationKeepsListed(shop, m);
      var (changed, ok) := Mutate(shop, m);
      shop, success := changed, ok;
      if ok {
        var _ := redis.DeleteCache(GroupOf(m), scan);
      }
    }
  }
}
