/** The login-failure limiter, over the four Redis commands that it uses. Times are milliseconds. */
module RateLimit {
  import opened Wrappers

  const MAX_LOGIN_ATTEMPTS := 5
  const LOCKOUT := 15 * 60 * 1000

  /** A stored counter; expiry is the time from which the key no longer exists. */
  datatype Counter = Counter(count: int, expiry: Option<int>)

  type Keyspace = map<string, Counter>

  predicate Exists(keys: Keyspace, key: string, now: int) {
    key in keys && (keys[key].expiry.None? || now < keys[key].expiry.value)
  }

  /** INCR keeps the expiry of an existing key and creates a missing one without expiry. */
  function Incr(keys: Keyspace, key: string, now: int): Keyspace {
    if Exists(keys, key, now) then keys[key := keys[key].(count := keys[key].count + 1)]
    else keys[key := Counter(1, None)]
  }

  /** EXPIRE does nothing on a missing key. */
  function Expire(keys: Keyspace, key: string, now: int, ttl: int): Keyspace {
    if Exists(keys, key, now) then keys[key := keys[key].(expiry := Some(now + ttl))] else keys
  }

  function Get(keys: Keyspace, key: string, now: int): Option<int> {
    if Exists(keys, key, now) then Some(keys[key].count) else None
  }

  function LoginKey(ip: string): string {
    "nexus:rate:login:" + ip
  }

  /** RecordFailedLogin when nothing comes between its two commands. */
  function Recorded(keys: Keyspace, ip: string, now: int): Keyspace {
    Expire(Incr(keys, LoginKey(ip), now), LoginKey(ip), now, LOCKOUT)
  }

  predicate Limited(keys: Keyspace, ip: string, now: int) {
    var count := Get(keys, LoginKey(ip), now);
    count.Some? && count.value >= MAX_LOGIN_ATTEMPTS
  }

  class Redis {
    var keys: Keyspace
    var now: int

    constructor (now: int)
      ensures keys == map[] && this.now == now
    {
      keys, this.now := map[], now;
    }

    method INCR(key: string) returns (count: int)
      modifies this`keys
      ensures keys == Incr(old(keys), key, now)
      ensures Get(keys, key, now) == Some(count)
      ensures if key in old(keys) && (old(keys)[key].expiry.None? || now < old(keys)[key].expiry.value)
              then keys == old(keys)[key := Counter(old(keys)[key].count + 1, old(keys)[key].expiry)]
              else keys == old(keys)[key := Counter(1, None)]
    {
      if Exists(keys, key, now) {
        count := keys[key].count + 1;
        keys := keys[key := keys[key].(count := count)];
      } else {
        count := 1;
        keys := keys[key := Counter(1, None)];
      }
    }

    method EXPIRE(key: string, ttl: int)
      modifies this`keys
      ensures keys == Expire(old(keys), key, now, ttl)
      ensures if key in old(keys) && (old(keys)[key].expiry.None? || now < old(keys)[key].expiry.value)
              then keys == old(keys)[key := Counter(old(keys)[key].count, Some(now + ttl))]
              else keys == old(keys)
    {
      if Exists(keys, key, now) {
        keys := keys[key := keys[key].(expiry := Some(now + ttl))];
      }
    }

    method GET(key: string) returns (count: Option<int>)
      ensures count == Get(keys, key, now)
    {
      if Exists(keys, key, now) {
        return Some(keys[key].count);
      }
      count := None;
    }

    method DEL(key: string)
      modifies this`keys
      ensures keys == old(keys) - {key}
    {
      keys := keys - {key};
    }
  }

  class RateLimiter {
    const client: Redis

    constructor (client: Redis)
      ensures this.client == client
    {
      this.client := client;
    }

    method RecordFailedLogin(ip: string) returns (count: int, limited: bool)
      modifies client`keys
      ensures client.keys == Recorded(old(client.keys), ip, client.now)
      ensures Get(client.keys, LoginKey(ip), client.now) == Some(count)
      ensures limited == Limited(client.keys, ip, client.now) == (count >= 5)
      ensures client.keys == old(client.keys)["nexus:rate:login:" + ip := Counter(count, Some(client.now + 900_000))]
    {
      var key := LoginKey(ip);
      count := client.INCR(key);
      client.EXPIRE(key, LOCKOUT);
      limited := count >= MAX_LOGIN_ATTEMPTS;
    }

    method IsRateLimited(ip: string) returns (limited: bool)
      ensures limited == Limited(client.keys, ip, client.now)
    {
      var count := client.GET(LoginKey(ip));
      if count.None? {
        return false;
      }
      limited := count.value >= MAX_LOGIN_ATTEMPTS;
    }

    method ResetFailedLogins(ip: string)
      modifies client`keys
      ensures client.keys == old(client.keys) - {"nexus:rate:login:" + ip}
    {
      client.DEL(LoginKey(ip));
    }
  }
}
