/** The verification cache in front of scrypt (genpi/auth.py). Strings stand for their UTF-8 bytes;
    the MAC and the password check are parameters. */
module AuthCache {
  const NUL: char := '\0'
  const CACHE_MAX: nat := 256

  predicate NulFree(s: string) {
    NUL !in s
  }

  /** What is fed to the MAC: each part followed by a NUL. */
  function KeyInput(parts: seq<string>): string {
    if parts == [] then "" else parts[0] + [NUL] + KeyInput(parts[1..])
  }

  lemma FeedOne(fed: string, parts: seq<string>)
    requires parts != []
    ensures fed + KeyInput(parts) == fed + parts[0] + [NUL] + KeyInput(parts[1..])
  {
  }

  lemma FeedNone(fed: string)
    ensures fed + KeyInput([]) == fed
  {
  }

  datatype Env = Env(mac: string -> Digest, verify: (string, string) -> bool, dummyHash: string, ttl: real)

  function CacheKey(env: Env, username: string, storedHash: string, password: string): Digest {
    env.mac(KeyInput([username, storedHash, password]))
  }

  // ------------------------------------------------------------- key encoding

  lemma FirstNul(a: string, s: string, b: string, t: string)
    requires NulFree(a) && NulFree(b) && a + [NUL] + s == b + [NUL] + t
    ensures a == b && s == t
  {
    var x, y := a + [NUL] + s, b + [NUL] + t;
    assert x[|a|] == NUL && y[|b|] == NUL;
    assert forall i :: 0 <= i < |a| ==> x[i] == a[i] && a[i] != NUL;
    assert forall i :: 0 <= i < |b| ==> y[i] == b[i] && b[i] != NUL;
    assert |a| == |b|;
    assert a == x[..|a|] && b == y[..|b|];
    assert s == x[|a| + 1..] && t == y[|b| + 1..];
  }

  lemma KeyInputOfThree(u: string, h: string, p: string)
    ensures KeyInput([u, h, p]) == u + [NUL] + (h + [NUL] + (p + [NUL]))
  {
    assert [u, h, p][1..] == [h, p] && [h, p][1..] == [p] && [p][1..] == [];
    assert p + [NUL] + "" == p + [NUL];
    assert KeyInput([p]) == p + [NUL];
    assert KeyInput([h, p]) == h + [NUL] + (p + [NUL]);
  }

  /** With NUL-free names and hashes (any password), equal inputs come from equal credentials. */
  lemma KeyInputInjective(u: string, h: string, p: string, u': string, h': string, p': string)
    requires NulFree(u) && NulFree(h) && NulFree(u') && NulFree(h')
    requires KeyInput([u, h, p]) == KeyInput([u', h', p'])
    ensures u == u' && h == h' && p == p'
  {
    KeyInputOfThree(u, h, p);
    KeyInputOfThree(u', h', p');
    FirstNul(u, h + [NUL] + (p + [NUL]), u', h' + [NUL] + (p' + [NUL]));
    FirstNul(h, p + [NUL], h', p' + [NUL]);
    assert p == (p + [NUL])[..|p|] && p' == (p' + [NUL])[..|p'|];
  }

  /** The separators alone are not enough: a NUL inside a name makes two credentials collide. */
  lemma NulInNameCollides()
    ensures KeyInput(["a", "b", ['c', NUL, 'd']]) == KeyInput([['a', NUL, 'b'], "c", "d"])
  {
    KeyInputOfThree("a", "b", ['c', NUL, 'd']);
    KeyInputOfThree(['a', NUL, 'b'], "c", "d");
  }

  // ------------------------------------------------------------- specification

  type Users = map<string, string>
  type Digest = string
  type Cache = map<Digest, real>

  /** The uncached rule. */
  predicate Authentic(env: Env, users: Users, username: string, password: string) {
    username in users && env.verify(users[username], password)
  }

  function StoredHash(env: Env, users: Users, username: string): string {
    if username in users then users[username] else env.dummyHash
  }

  predicate Hit(env: Env, cache: Cache, users: Users, username: string, password: string, now: real) {
    var key := CacheKey(env, username, StoredHash(env, users, username), password);
    key in cache && cache[key] > now
  }

  function Live(cache: Cache, now: real): Cache {
    map k | k in cache && cache[k] > now :: cache[k]
  }

  /** Room for one more: drop what has expired, and everything if that is not enough. */
  function MakeRoom(cache: Cache, now: real): Cache {
    if |cache| < CACHE_MAX then cache
    else if |Live(cache, now)| < CACHE_MAX then Live(cache, now) else map[]
  }

  /** The second lock section: remember a success. `was` is the credential map the hash was read
      from, `users` the one consulted after the slow check. */
  function Kept(env: Env, cache: Cache, was: Users, users: Users, username: string, password: string,
                now: real): Cache {
    var hash := StoredHash(env, was, username);
    if env.verify(hash, password) && username in users && env.ttl > 0.0 then
      MakeRoom(cache, now)[CacheKey(env, username, hash, password) := now + env.ttl]
    else cache
  }

  class Authenticator {
    const env: Env
    var cache: Cache

    constructor (env: Env)
      ensures this.env == env && cache == map[]
    {
      this.env, cache := env, map[];
    }

    method CheckAuth(users: Users, username: string, password: string, now: real) returns (ok: bool, scryptRuns: nat)
      modifies this
      ensures Hit(env, old(cache), users, username, password, now) ==>
                cache == old(cache) && ok == (username in users) && scryptRuns == 0
      ensures !Hit(env, old(cache), users, username, password, now) ==>
                ok == Authentic(env, users, username, password) && scryptRuns == 1
                && cache == Kept(env, old(cache), users, users, username, password, now)
      ensures GoodEnv(env) && CleanUsers(users) && CacheInv(env, old(cache)) ==>
                && ok == (username in users && env.verify(users[username], password))
                && CacheInv(env, cache) && |cache| <= 256
    {
      if GoodEnv(env) && CleanUsers(users) && CacheInv(env, cache) {
        if Hit(env, cache, users, username, password, now) {
          HitIsRight(env, cache, users, username, password, now);
        }
        KeepKeepsInv(env, cache, users, users, username, password, now);
      }
      hide GoodEnv, CleanUsers, CacheInv;
      var storedHash := if username in users then users[username] else env.dummyHash;
      var key := AuthCacheKey(username, storedHash, password);
      if key in cache && cache[key] > now {
        return username in users, 0;
      }
      ok := env.verify(storedHash, password) && username in users;
      if ok && env.ttl > 0.0 {
        if |cache| >= CACHE_MAX {
          PurgeExpired(now);
          if |cache| >= CACHE_MAX {
            cache := map[];
          }
        }
        cache := cache[key := now + env.ttl];
      }
      scryptRuns := 1;
    }

    /** Feeds the parts to the MAC one after the other, a NUL after each. */
    method AuthCacheKey(username: string, storedHash: string, password: string) returns (key: Digest)
      ensures key == CacheKey(env, username, storedHash, password)
    {
      hide KeyInput;
      var parts, fed := [username, storedHash, password], "";
      for i := 0 to |parts|
        invariant fed + KeyInput(parts[i..]) == KeyInput(parts)
      {
        FeedOne(fed, parts[i..]);
        assert parts[i..][1..] == parts[i + 1..];
        fed := fed + parts[i] + [NUL];
      }
      FeedNone(fed);
      assert parts[|parts|..] == [];
      key := env.mac(fed);
    }

    method PurgeExpired(now: real)
      modifies this
      ensures cache == Live(old(cache), now)
    {
      var was := cache;
      var todo := set k | k in was && was[k] <= now;
      while |todo| > 0
        invariant forall k :: k in todo ==> k in was && was[k] <= now
        invariant cache == map k | k in was && (k in todo || was[k] > now) :: was[k]
        decreases todo
      {
        var k :| k in todo;
        cache := cache - {k};
        todo := todo - {k};
      }
    }
  }

  // ------------------------------------------------------------- the cache is invisible

  ghost predicate Injective(mac: string -> string) {
    forall x, y :: mac(x) == mac(y) ==> x == y
  }

  /** Names and hashes read from the settings file contain no NUL. */
  predicate CleanUsers(users: Users) {
    forall u :: u in users ==> NulFree(u) && NulFree(users[u])
  }

  ghost predicate GoodEnv(env: Env) {
    Injective(env.mac) && NulFree(env.dummyHash)
  }

  /** The key belongs to some verified credential. */
  ghost predicate Verified(env: Env, key: Digest) {
    exists u, h, p :: NulFree(u) && NulFree(h) && key == CacheKey(env, u, h, p) && env.verify(h, p)
  }

  ghost predicate CacheInv(env: Env, cache: Cache) {
    && |cache| <= CACHE_MAX
    && forall k :: k in cache ==> Verified(env, k)
  }

  /** A hit gives the uncached answer, for every name and password, NULs included. */
  lemma HitIsRight(env: Env, cache: Cache, users: Users, username: string, password: string, now: real)
    requires GoodEnv(env) && CleanUsers(users) && CacheInv(env, cache)
    requires Hit(env, cache, users, username, password, now)
    ensures (username in users) == Authentic(env, users, username, password)
  {
    if username in users {
      var key := CacheKey(env, username, users[username], password);
      var u, h, p :| NulFree(u) && NulFree(h) && key == CacheKey(env, u, h, p) && env.verify(h, p);
      assert KeyInput([u, h, p]) == KeyInput([username, users[username], password]);
      KeyInputInjective(u, h, p, username, users[username], password);
    }
  }

  lemma RoomIsMade(cache: Cache, now: real)
    ensures |MakeRoom(cache, now)| < CACHE_MAX
    ensures forall k :: k in MakeRoom(cache, now) ==> k in cache
  {
  }

  lemma KeepKeepsInv(env: Env, cache: Cache, was: Users, users: Users, username: string, password: string, now: real)
    requires GoodEnv(env) && CleanUsers(was) && CleanUsers(users) && CacheInv(env, cache)
    ensures CacheInv(env, Kept(env, cache, was, users, username, password, now))
  {
    var hash := StoredHash(env, was, username);
    if env.verify(hash, password) && username in users && env.ttl > 0.0 {
      var room, key := MakeRoom(cache, now), CacheKey(env, username, hash, password);
      RoomIsMade(cache, now);
      var kept := room[key := now + env.ttl];
      assert kept.Keys == room.Keys + {key};
      assert |kept| == |kept.Keys| <= |room.Keys| + 1 == |room| + 1;
      assert Verified(env, key);
    }
  }

  /** The two lock sections of any number of concurrent calls, with the credentials they read. */
  datatype Op =
    | Look(users: Users, username: string, password: string, now: real)
    | Keep(was: Users, users: Users, username: string, password: string, now: real)

  ghost predicate Clean(op: Op) {
    CleanUsers(op.users) && (op.Keep? ==> CleanUsers(op.was))
  }

  ghost function After(env: Env, cache: Cache, op: Op): Cache {
    if op.Look? then cache else Kept(env, cache, op.was, op.users, op.username, op.password, op.now)
  }

  /** Every answer given from the cache is the one the uncached rule gives at that moment. */
  ghost predicate AnswersRight(env: Env, cache: Cache, ops: seq<Op>)
    decreases |ops|
  {
    ops != [] ==>
      && |After(env, cache, ops[0])| <= CACHE_MAX
      && (ops[0].Look? && Hit(env, cache, ops[0].users, ops[0].username, ops[0].password, ops[0].now) ==>
            (ops[0].username in ops[0].users) == Authentic(env, ops[0].users, ops[0].username, ops[0].password))
      && AnswersRight(env, After(env, cache, ops[0]), ops[1..])
  }

  /** Over any interleaved history of calls, clock values and credential changes, the cache is
      invisible and never holds more than 256 entries. */
  lemma {:induction false} CacheIsInvisible(env: Env, cache: Cache, ops: seq<Op>)
    requires GoodEnv(env) && CacheInv(env, cache)
    requires forall i :: 0 <= i < |ops| ==> Clean(ops[i])
    ensures AnswersRight(env, cache, ops)
    decreases |ops|
  {
    if ops != [] {
      var op := ops[0];
      if op.Look? {
        if Hit(env, cache, op.users, op.username, op.password, op.now) {
          HitIsRight(env, cache, op.users, op.username, op.password, op.now);
        }
      } else {
        KeepKeepsInv(env, cache, op.was, op.users, op.username, op.password, op.now);
      }
      CacheIsInvisible(env, After(env, cache, op), ops[1..]);
    }
  }

  /** A new success costs no live entry its place unless 256 live ones are held already, and no entry at
      all while there is room. */
  lemma SuccessForgetsNobody(env: Env, cache: Cache, was: Users, users: Users, username: string, password: string,
                             now: real, key: Digest)
    requires key in cache && key != CacheKey(env, username, StoredHash(env, was, username), password)
    requires |cache| < 256 || (cache[key] > now && |set k | k in cache && cache[k] > now| < 256)
    ensures var kept := Kept(env, cache, was, users, username, password, now);
            key in kept && kept[key] == cache[key]
  {
    var live := Live(cache, now);
    assert live.Keys == set k | k in cache && cache[k] > now;
    assert |live| == |live.Keys|;
  }

  /** A success is remembered for ttl seconds, and only a success is ever remembered. */
  lemma SuccessIsRemembered(env: Env, cache: Cache, users: Users, username: string, password: string, now: real,
                            later: real)
    requires GoodEnv(env) && CleanUsers(users) && NulFree(username) && env.ttl > 0.0
    ensures Authentic(env, users, username, password) ==>
              (Hit(env, Kept(env, cache, users, users, username, password, now), users, username, password, later)
               <==> later < now + env.ttl)
    ensures !Authentic(env, users, username, password) ==>
              Kept(env, cache, users, users, username, password, now) == cache
  {
  }
}
