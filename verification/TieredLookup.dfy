/** Redis in front of Mongo in front of ESI: `cached_docs_by_id` and the four tiered resolvers, which
    differ only in prefix, collection, value and Mongo filter. */
module TieredLookup {
  import opened Optional
  import Sums

  /** What a collection holds under an id, named by the collection's cache prefix. */
  datatype Entry = Entry(prefix: string, id: int)

  datatype Value =
    | Name(name: Option<string>)
    | Security(status: Option<real>)
    | Place(placeName: Option<string>, systemId: Option<int>)
    | Document(body: string)

  /** A lookup that failed answers without a name, or without a status. */
  predicate IsNull(v: Value) {
    v == Name(None) || v == Security(None) || (v.Place? && v.placeName == None)
  }

  datatype Tiers = Tiers(redis: map<string, Value>, mongo: map<Entry, Value>)

  /** One call and everything outside its control: whether a Redis client was passed, whether its MGET
      raises, which of its SETs take effect, and ESI's replies (None raises). */
  datatype Lookup = Lookup(prefix: string, ids: set<int>, namedOnly: bool, redisGiven: bool, readFails: bool,
                           bulkLands: set<string>, lands: set<int>, esi: int -> Option<Value>)

  // Cache keys

  function Digits(n: nat): string {
    var last := [('0' as int + n % 10) as char];
    if n < 10 then last else Digits(n / 10) + last
  }

  function Decimal(v: int): string {
    if v < 0 then "-" + Digits(-v) else Digits(v)
  }

  function CacheKey(prefix: string, v: int): string {
    prefix + ":" + Decimal(v)
  }

  lemma {:induction false} DigitsAreDigits(n: nat)
    ensures 1 <= |Digits(n)|
    ensures forall i :: 0 <= i < |Digits(n)| ==> '0' <= Digits(n)[i] <= '9'
  {
    if 10 <= n {
      DigitsAreDigits(n / 10);
    }
  }

  /** The number a string of digits stands for. */
  function ReadDigits(s: string): int {
    if s == [] then 0 else 10 * ReadDigits(s[..|s| - 1]) + (s[|s| - 1] as int - '0' as int)
  }

  lemma {:induction false} DigitsAreRead(n: nat)
    ensures ReadDigits(Digits(n)) == n && (0 < n ==> Digits(n)[0] != '0')
  {
    var s := Digits(n);
    if n < 10 {
      assert s[..|s| - 1] == [];
    } else {
      DigitsAreDigits(n / 10);
      DigitsAreRead(n / 10);
      assert s[..|s| - 1] == Digits(n / 10);
    }
  }

  /** A cache key is the prefix, a colon and the id in decimal: a minus sign if it is negative, and digits without
      leading zeros. */
  lemma CacheKeyReads(prefix: string, id: int)
    ensures var key := CacheKey(prefix, id);
      && |prefix| + 2 <= |key| && key[..|prefix|] == prefix && key[|prefix|] == ':'
      && var digits := if id < 0 then key[|prefix| + 2..] else key[|prefix| + 1..];
      && (id < 0 ==> key[|prefix| + 1] == '-')
      && digits != [] && (forall i :: 0 <= i < |digits| ==> '0' <= digits[i] <= '9')
      && (digits[0] == '0' ==> digits == "0") && ReadDigits(digits) == if id < 0 then -id else id
  {
    hide Digits;
    var n := if id < 0 then -id else id;
    DigitsAreDigits(n);
    DigitsAreRead(n);
    ZeroDigits();
    var key := CacheKey(prefix, id);
    assert key == prefix + [':'] + Decimal(id);
    assert key[|prefix| + 1..] == Decimal(id);
    assert id < 0 ==> key[|prefix| + 2..] == Digits(n);
  }

  lemma ZeroDigits()
    ensures Digits(0) == "0"
  {
  }

  lemma {:induction false} DigitsInjective(m: nat, n: nat)
    requires Digits(m) == Digits(n)
    ensures m == n
  {
    var a, b := Digits(m), Digits(n);
    assert a[|a| - 1] == ('0' as int + m % 10) as char;
    assert b[|b| - 1] == ('0' as int + n % 10) as char;
    assert m % 10 == n % 10;
    if 10 <= m {
      DigitsAreDigits(m / 10);
    }
    if 10 <= n {
      DigitsAreDigits(n / 10);
    }
    if 10 <= m && 10 <= n {
      assert a[..|a| - 1] == Digits(m / 10);
      assert b[..|b| - 1] == Digits(n / 10);
      DigitsInjective(m / 10, n / 10);
    }
  }

  lemma DecimalCharacters(v: int)
    ensures ':' !in Decimal(v)
    ensures 1 <= |Decimal(v)| && (Decimal(v)[0] == '-' <==> v < 0)
  {
    DigitsAreDigits(if v < 0 then -v else v);
  }

  lemma DecimalInjective(v: int, w: int)
    requires Decimal(v) == Decimal(w)
    ensures v == w
  {
    DecimalCharacters(v);
    DecimalCharacters(w);
    if v < 0 {
      assert Decimal(v)[1..] == Digits(-v);
      assert Decimal(w)[1..] == Digits(-w);
      DigitsInjective(-v, -w);
    } else {
      DigitsInjective(v, w);
    }
  }

  /** Two lookups share a key only when they share prefix and id, whatever the prefixes contain. */
  lemma CacheKeyInjective(p: string, v: int, q: string, w: int)
    requires CacheKey(p, v) == CacheKey(q, w)
    ensures p == q && v == w
  {
    DecimalCharacters(v);
    DecimalCharacters(w);
    LastColon(p, Decimal(v));
    LastColon(q, Decimal(w));
    var a, b := CacheKey(p, v), CacheKey(q, w);
    assert a[..|p|] == p && b[..|q|] == q;
    assert a[|p| + 1..] == Decimal(v) && b[|q| + 1..] == Decimal(w);
    DecimalInjective(v, w);
  }

  lemma LastColon(p: string, a: string)
    requires ':' !in a
    ensures (p + ":" + a)[|p|] == ':'
    ensures forall i :: |p| < i < |p + ":" + a| ==> (p + ":" + a)[i] != ':'
  {
    forall i | |p| < i < |p + ":" + a|
      ensures (p + ":" + a)[i] != ':'
    {
      assert (p + ":" + a)[i] == a[i - |p| - 1];
    }
  }

  /** Values by id, put under their cache keys. */
  function Keyed(prefix: string, m: map<int, Value>): (keyed: map<string, Value>)
    ensures forall id :: id in m ==> CacheKey(prefix, id) in keyed && keyed[CacheKey(prefix, id)] == m[id]
    ensures forall k :: k in keyed ==> exists id :: id in m && k == CacheKey(prefix, id)
  {
    KeysApart(prefix);
    map id | id in m :: CacheKey(prefix, id) := m[id]
  }

  lemma KeysApart(prefix: string)
    ensures forall v, w :: CacheKey(prefix, v) == CacheKey(prefix, w) ==> v == w
  {
    forall v, w | CacheKey(prefix, v) == CacheKey(prefix, w)
      ensures v == w
    {
      CacheKeyInjective(prefix, v, prefix, w);
    }
  }

  // What a call finds

  /** The requested ids whose key was in the cache. */
  function Hits(c: Lookup, cached: map<string, Value>): map<int, Value> {
    map id | id in c.ids && CacheKey(c.prefix, id) in cached :: cached[CacheKey(c.prefix, id)]
  }

  /** What Mongo finds for the ids the cache lacked. */
  function Found(mongo: map<Entry, Value>, c: Lookup, missing: set<int>): map<int, Value> {
    map id | id in missing && Matches(mongo, c, id) :: mongo[Entry(c.prefix, id)]
  }

  function FromRedis(t: Tiers, c: Lookup): map<int, Value> {
    map id | id in c.ids && c.redisGiven && !c.readFails && CacheKey(c.prefix, id) in t.redis ::
      t.redis[CacheKey(c.prefix, id)]
  }

  /** A document without a name is passed over where the resolver filters for names. */
  predicate Matches(mongo: map<Entry, Value>, c: Lookup, id: int) {
    Entry(c.prefix, id) in mongo && (c.namedOnly ==> !IsNull(mongo[Entry(c.prefix, id)]))
  }

  function FromMongo(t: Tiers, c: Lookup): map<int, Value> {
    Found(t.mongo, c, c.ids - FromRedis(t, c).Keys)
  }

  function Stored(t: Tiers, c: Lookup): map<int, Value> {
    FromRedis(t, c) + FromMongo(t, c)
  }

  function Answer(t: Tiers, c: Lookup, id: int): Option<Value> {
    if id in Stored(t, c) then Some(Stored(t, c)[id]) else c.esi(id)
  }

  /** What a lookup should answer for an id (None when ESI raises): Redis if it was readable and has the key, else Mongo
      unless it has no document or the lookup passes its null over, else ESI. */
  predicate TierAnswers(t: Tiers, c: Lookup, id: int, answer: Option<Value>) {
    var key, e := CacheKey(c.prefix, id), Entry(c.prefix, id);
    if c.redisGiven && !c.readFails && key in t.redis then answer == Some(t.redis[key])
    else if e in t.mongo && !(c.namedOnly && NullInside(t.mongo[e])) then answer == Some(t.mongo[e])
    else answer == c.esi(id)
  }

  /** ESI has to be asked for the id. */
  predicate NoTierAnswers(t: Tiers, c: Lookup, id: int) {
    var key, e := CacheKey(c.prefix, id), Entry(c.prefix, id);
    && !(c.redisGiven && !c.readFails && key in t.redis)
    && (e in t.mongo ==> c.namedOnly && NullInside(t.mongo[e]))
  }

  /** The value's name, or the status it is, is null. */
  predicate NullInside(v: Value) {
    match v
    case Name(name) => name.None?
    case Security(status) => status.None?
    case Place(name, _) => name.None?
    case Document(_) => false
  }

  lemma NullIsInside()
    ensures forall v :: IsNull(v) <==> NullInside(v)
  {
  }

  lemma AnswersByTier(t: Tiers, c: Lookup)
    ensures forall id :: id in c.ids ==> TierAnswers(t, c, id, Answer(t, c, id))
    ensures forall id :: id in c.ids ==> (id !in Stored(t, c) <==> NoTierAnswers(t, c, id))
  {
    hide CacheKey;
  }

  /** Each id is found as the tiers have it, and what is not found no tier has. */
  ghost predicate FoundByTiers(t: Tiers, c: Lookup, found: map<int, Value>) {
    && (forall id :: id in found ==> id in c.ids && TierAnswers(t, c, id, Some(found[id])))
    && forall id :: id in c.ids && id !in found ==> NoTierAnswers(t, c, id)
  }

  /** Each id is answered as the tiers or else ESI have it, and ESI is asked for exactly what no tier has; without an
      answer, ESI raised for one of those. */
  ghost predicate AnsweredByTiers(t: Tiers, c: Lookup, resolved: Option<map<int, Value>>, asked: set<int>) {
    if resolved.None? then exists id :: id in c.ids && NoTierAnswers(t, c, id) && c.esi(id).None?
    else
      && resolved.value.Keys == c.ids
      && (forall id :: id in c.ids ==> TierAnswers(t, c, id, Some(resolved.value[id])))
      && forall id :: id in asked <==> id in c.ids && NoTierAnswers(t, c, id)
  }

  lemma StoredByTiers(t: Tiers, c: Lookup)
    ensures FoundByTiers(t, c, Stored(t, c))
  {
    hide CacheKey, Stored, TierAnswers, NoTierAnswers;
    AnswersByTier(t, c);
    AnswersFound(t, c);
  }

  lemma NotAnswered(t: Tiers, c: Lookup, id: int, asked: set<int>)
    requires id in c.ids && id !in Stored(t, c) && c.esi(id).None?
    ensures AnsweredByTiers(t, c, None, asked)
  {
    hide CacheKey, Stored, TierAnswers, NoTierAnswers;
    AnswersByTier(t, c);
  }

  lemma AllAnswered(t: Tiers, c: Lookup, found: map<int, Value>, asked: set<int>)
    requires found.Keys == c.ids && asked == c.ids - Stored(t, c).Keys
    requires forall id :: id in found ==> Answer(t, c, id) == Some(found[id])
    ensures AnsweredByTiers(t, c, Some(found), asked)
  {
    hide CacheKey, Stored, TierAnswers, NoTierAnswers, Answer;
    AnswersByTier(t, c);
  }

  // What a call leaves behind

  predicate Learned(c: Lookup, asked: set<int>, id: int) {
    id in asked && c.esi(id).Some? && !IsNull(c.esi(id).value)
  }

  /** A SET for `id` took effect: in the batch after the Mongo read, or after its own ESI reply. */
  predicate Cached(t: Tiers, c: Lookup, asked: set<int>, id: int) {
    && c.redisGiven
    && if id in FromMongo(t, c) then CacheKey(c.prefix, id) in c.bulkLands
       else id in c.lands && Learned(c, asked, id)
  }

  function Looked(c: Lookup): set<string> {
    set id | id in c.ids :: CacheKey(c.prefix, id)
  }

  /** ESI was asked for `asked`: Mongo gained the replies that were known, Redis the values whose SET
      took effect, and nothing else changed. */
  ghost predicate Settled(before: Tiers, after: Tiers, c: Lookup, asked: set<int>) {
    && (forall e :: e in after.mongo <==> e in before.mongo || (e.prefix == c.prefix && Learned(c, asked, e.id)))
    && (forall e :: e in after.mongo ==>
          after.mongo[e] ==
            if e.prefix == c.prefix && Learned(c, asked, e.id) then c.esi(e.id).value else before.mongo[e])
    && (forall k :: k !in Looked(c) ==>
          (k in after.redis <==> k in before.redis) && (k in after.redis ==> after.redis[k] == before.redis[k]))
    && (forall id :: id in c.ids ==> SettledAt(before, after, c, asked, id))
  }

  ghost predicate SettledAt(before: Tiers, after: Tiers, c: Lookup, asked: set<int>, id: int) {
    var k := CacheKey(c.prefix, id);
    && (k in after.redis <==> k in before.redis || Cached(before, c, asked, id))
    && (k in after.redis ==>
          after.redis[k] ==
            if Cached(before, c, asked, id) then
              (if id in FromMongo(before, c) then FromMongo(before, c)[id] else c.esi(id).value)
            else before.redis[k])
  }

  // The same, value by value

  ghost predicate SameEntry(before: Tiers, after: Tiers, e: Entry) {
    (e in after.mongo <==> e in before.mongo) && (e in before.mongo ==> after.mongo[e] == before.mongo[e])
  }

  ghost predicate SameKey(before: Tiers, after: Tiers, k: string) {
    (k in after.redis <==> k in before.redis) && (k in before.redis ==> after.redis[k] == before.redis[k])
  }

  /** Redis was unreadable or did not have the key, and Mongo had a document that the lookup does not pass over. */
  predicate ReadFromMongo(t: Tiers, c: Lookup, id: int) {
    var key, e := CacheKey(c.prefix, id), Entry(c.prefix, id);
    && !(c.redisGiven && !c.readFails && key in t.redis)
    && e in t.mongo && !(c.namedOnly && NullInside(t.mongo[e]))
  }

  /** ESI was asked and gave a value that is not null. */
  predicate Resolves(c: Lookup, asked: set<int>, id: int) {
    id in asked && c.esi(id).Some? && !NullInside(c.esi(id).value)
  }

  /** Redis at one id: what came from Mongo or from ESI is there when its SET took effect. */
  ghost predicate CachedAt(before: Tiers, after: Tiers, c: Lookup, asked: set<int>, id: int) {
    var key, e := CacheKey(c.prefix, id), Entry(c.prefix, id);
    if ReadFromMongo(before, c, id) && c.redisGiven && key in c.bulkLands then
      key in after.redis && after.redis[key] == before.mongo[e]
    else if !ReadFromMongo(before, c, id) && Resolves(c, asked, id) && c.redisGiven && id in c.lands then
      key in after.redis && after.redis[key] == c.esi(id).value
    else SameKey(before, after, key)
  }

  /** Mongo at one entry: the values ESI gave are there, and everything else is as it was. */
  ghost predicate KeptAt(before: Tiers, after: Tiers, c: Lookup, asked: set<int>, e: Entry) {
    if e.prefix == c.prefix && Resolves(c, asked, e.id) then e in after.mongo && after.mongo[e] == c.esi(e.id).value
    else SameEntry(before, after, e)
  }

  ghost predicate LeftByTiers(before: Tiers, after: Tiers, c: Lookup, asked: set<int>) {
    && (forall e :: KeptAt(before, after, c, asked, e))
    && (forall id :: id in c.ids ==> CachedAt(before, after, c, asked, id))
    && forall k :: (forall id :: id in c.ids ==> k != CacheKey(c.prefix, id)) ==> SameKey(before, after, k)
  }

  lemma MongoIsRead(t: Tiers, c: Lookup, id: int)
    requires id in c.ids
    ensures id in FromMongo(t, c) <==> ReadFromMongo(t, c, id)
    ensures id in FromMongo(t, c) ==> FromMongo(t, c)[id] == t.mongo[Entry(c.prefix, id)]
  {
    hide CacheKey, IsNull, NullInside;
    NullIsInside();
  }

  lemma LearnedResolves(c: Lookup, asked: set<int>, id: int)
    ensures Learned(c, asked, id) <==> Resolves(c, asked, id)
  {
    hide IsNull, NullInside;
    NullIsInside();
  }

  lemma SettledCachedAt(before: Tiers, after: Tiers, c: Lookup, asked: set<int>, id: int)
    requires SettledAt(before, after, c, asked, id) && id in c.ids
    ensures CachedAt(before, after, c, asked, id)
  {
    hide CacheKey, FromMongo, ReadFromMongo, Learned, Resolves;
    MongoIsRead(before, c, id);
    LearnedResolves(c, asked, id);
  }

  lemma SettledKeptAt(before: Tiers, after: Tiers, c: Lookup, asked: set<int>, e: Entry)
    requires Settled(before, after, c, asked)
    ensures KeptAt(before, after, c, asked, e)
  {
    hide CacheKey, SettledAt, IsNull, NullInside;
    NullIsInside();
  }

  /** What a call leaves behind is that and no more. */
  lemma SettledIsLeft(before: Tiers, after: Tiers, c: Lookup, asked: set<int>)
    requires Settled(before, after, c, asked)
    ensures LeftByTiers(before, after, c, asked)
  {
    hide CacheKey, SettledAt, KeptAt, CachedAt, IsNull;
    forall e
      ensures KeptAt(before, after, c, asked, e)
    {
      SettledKeptAt(before, after, c, asked, e);
    }
    forall id | id in c.ids
      ensures CachedAt(before, after, c, asked, id)
    {
      SettledCachedAt(before, after, c, asked, id);
    }
  }

  class Stores {
    var redis: map<string, Value>
    var mongo: map<Entry, Value>

    ghost function State(): Tiers
      reads this
    {
      Tiers(redis, mongo)
    }

    /** A missing client and a Redis error both read as an empty cache. */
    method GetManyCached(given: bool, keys: set<string>, fails: bool) returns (result: map<string, Value>)
      ensures result == map k | k in keys && given && !fails && k in redis :: redis[k]
    {
      if !given || keys == {} {
        return map[];
      }
      if fails {
        return map[];
      }
      result := map k | k in keys && k in redis :: redis[k];
    }

    /** The pipeline is not a transaction: the SETs in `lands` take effect, and no error is reported. */
    method SetManyCached(given: bool, items: map<string, Value>, lands: set<string>)
      modifies this`redis
      ensures redis == old(redis) + map k | k in items && given && k in lands :: items[k]
    {
      if !given || items == map[] {
        return;
      }
      var pipeline: map<string, Value> := map[];
      var remaining := items.Keys;
      while remaining != {}
        invariant remaining <= items.Keys
        invariant pipeline == map k | k in items && k !in remaining :: items[k]
        decreases remaining
      {
        var k :| k in remaining;
        pipeline := pipeline[k := items[k]];
        remaining := remaining - {k};
      }
      redis := redis + map k | k in pipeline && k in lands :: pipeline[k];
    }

    /** Redis first, Mongo for what it lacks, and what Mongo had is written back to Redis. */
    method CachedDocsById(c: Lookup) returns (found: map<int, Value>)
      modifies this`redis
      ensures found == Stored(old(State()), c)
      ensures FoundByTiers(old(State()), c, found)
      ensures Settled(old(State()), State(), c, {})
      ensures LeftByTiers(old(State()), State(), c, {})
    {
      hide LeftByTiers;
      hide Settled, CacheKey, IsNull, FromRedis, Keyed, Hits, Found, Looked, FoundByTiers;
      var cached := GetManyCached(c.redisGiven, Looked(c), c.readFails);
      found := Hits(c, cached);
      ReadFromRedis(State(), c, cached);
      var missing := c.ids - found.Keys;
      var docs := Found(mongo, c, missing);
      if missing != {} {
        found := found + docs;
        SetManyCached(c.redisGiven, Keyed(c.prefix, docs), c.bulkLands);
      } else {
        NothingMissing(mongo, c);
      }
      DocsSettled(old(State()), State(), c);
      SettledIsLeft(old(State()), State(), c, {});
      StoredByTiers(old(State()), c);
    }

    /** Only a successful reply is kept, in Mongo and in Redis. */
    method StoreReply(c: Lookup, id: int, reply: Value)
      modifies this
      ensures mongo == if IsNull(reply) then old(mongo) else old(mongo)[Entry(c.prefix, id) := reply]
      ensures redis == if !IsNull(reply) && c.redisGiven && id in c.lands
                       then old(redis)[CacheKey(c.prefix, id) := reply] else old(redis)
      ensures NullInside(reply) ==> mongo == old(mongo) && redis == old(redis)
      ensures !NullInside(reply) ==>
                && Entry(c.prefix, id) in mongo && mongo[Entry(c.prefix, id)] == reply
                && (c.redisGiven && id in c.lands ==>
                      CacheKey(c.prefix, id) in redis && redis[CacheKey(c.prefix, id)] == reply)
    {
      NullIsInside();
      hide NullInside;
      hide CacheKey, IsNull;
      if !IsNull(reply) {
        mongo := mongo[Entry(c.prefix, id) := reply];
        SetManyCached(c.redisGiven, map[CacheKey(c.prefix, id) := reply],
                      if id in c.lands then {CacheKey(c.prefix, id)} else {});
      }
    }

    /** None when an ESI request raised. `asked` are the ids ESI replied for. */
    method ResolveTiered(c: Lookup) returns (resolved: Option<map<int, Value>>, ghost asked: set<int>)
      modifies this
      ensures Settled(old(State()), State(), c, asked)
      ensures asked <= c.ids - Stored(old(State()), c).Keys
      ensures resolved.None? <==> exists id :: id in c.ids && Answer(old(State()), c, id).None?
      ensures resolved.Some? ==>
                && asked == c.ids - Stored(old(State()), c).Keys
                && resolved.value.Keys == c.ids
                && forall id :: id in c.ids ==> Answer(old(State()), c, id) == Some(resolved.value[id])
      ensures AnsweredByTiers(old(State()), c, resolved, asked)
      ensures LeftByTiers(old(State()), State(), c, asked)
    {
      hide AnsweredByTiers, LeftByTiers;
      hide Settled, Stored, CacheKey, IsNull, Answer;
      var found := CachedDocsById(c);
      ghost var before := old(State());
      AnswersFound(before, c);
      asked := {};
      var remaining := c.ids - found.Keys;
      while remaining != {}
        invariant remaining <= c.ids - Stored(before, c).Keys
        invariant asked == c.ids - Stored(before, c).Keys - remaining
        invariant found.Keys == c.ids - remaining
        invariant forall id :: id in found ==> Answer(before, c, id) == Some(found[id])
        invariant Settled(before, State(), c, asked)
        decreases remaining
      {
        Sums.HasElement(remaining);
        var id :| id in remaining;
        var reply := c.esi(id);
        AnswerAsked(before, c, id);
        if reply.None? {
          NotAnswered(before, c, id, asked);
          SettledIsLeft(before, State(), c, asked);
          return None, asked;
        }
        ghost var at := State();
        found := found[id := reply.value];
        StoreReply(c, id, reply.value);
        OneMoreReply(before, at, State(), c, asked, id);
        asked := asked + {id};
        remaining := remaining - {id};
      }
      resolved := Some(found);
      AllAnswered(before, c, found, asked);
      SettledIsLeft(before, State(), c, asked);
    }
  }

  lemma ReadFromRedis(t: Tiers, c: Lookup, cached: map<string, Value>)
    requires cached == map k | k in Looked(c) && c.redisGiven && !c.readFails && k in t.redis :: t.redis[k]
    ensures Hits(c, cached) == FromRedis(t, c)
  {
    hide CacheKey;
  }

  lemma NothingMissing(mongo: map<Entry, Value>, c: Lookup)
    ensures Found(mongo, c, {}) == map[] && Keyed(c.prefix, map[]) == map[]
  {
    hide CacheKey;
  }

  lemma AnswersFound(t: Tiers, c: Lookup)
    ensures Stored(t, c).Keys <= c.ids
    ensures forall id :: id in Stored(t, c) ==> Answer(t, c, id) == Some(Stored(t, c)[id])
  {
    hide CacheKey, IsNull;
    assert FromMongo(t, c).Keys <= c.ids;
  }

  lemma AnswerAsked(t: Tiers, c: Lookup, id: int)
    requires id !in Stored(t, c)
    ensures Answer(t, c, id) == c.esi(id)
  {
  }

  lemma DocsSettled(before: Tiers, after: Tiers, c: Lookup)
    requires after.mongo == before.mongo
    requires after.redis == before.redis + map k |
               k in Keyed(c.prefix, FromMongo(before, c)) && c.redisGiven && k in c.bulkLands ::
               Keyed(c.prefix, FromMongo(before, c))[k]
    ensures Settled(before, after, c, {})
  {
    hide CacheKey, IsNull, FromMongo, Keyed;
    var docs := FromMongo(before, c);
    DocsAsked(before, c);
    forall id | id in c.ids
      ensures SettledAt(before, after, c, {}, id)
    {
      if id !in docs && CacheKey(c.prefix, id) in Keyed(c.prefix, docs) {
        var other :| other in docs && CacheKey(c.prefix, id) == CacheKey(c.prefix, other);
        CacheKeyInjective(c.prefix, id, c.prefix, other);
        assert false;
      }
    }
  }

  lemma DocsAsked(t: Tiers, c: Lookup)
    ensures forall id :: id in FromMongo(t, c) ==>
              id in c.ids && Entry(c.prefix, id) in t.mongo && FromMongo(t, c)[id] == t.mongo[Entry(c.prefix, id)]
  {
  }

  lemma OneMoreReply(before: Tiers, at: Tiers, after: Tiers, c: Lookup, asked: set<int>, id: int)
    requires Settled(before, at, c, asked)
    requires id in c.ids && id !in Stored(before, c) && id !in asked && c.esi(id).Some?
    requires after.mongo ==
             if IsNull(c.esi(id).value) then at.mongo else at.mongo[Entry(c.prefix, id) := c.esi(id).value]
    requires after.redis ==
             if !IsNull(c.esi(id).value) && c.redisGiven && id in c.lands
             then at.redis[CacheKey(c.prefix, id) := c.esi(id).value] else at.redis
    ensures Settled(before, after, c, asked + {id})
  {
    hide CacheKey, IsNull, FromMongo, FromRedis, SettledAt, Cached;
    forall i | i in c.ids
      ensures SettledAt(before, after, c, asked + {id}, i)
    {
      OneMoreReplyAt(before, at, after, c, asked, id, i);
    }
  }

  lemma OneMoreReplyAt(before: Tiers, at: Tiers, after: Tiers, c: Lookup, asked: set<int>, id: int, i: int)
    requires SettledAt(before, at, c, asked, i)
    requires id !in Stored(before, c) && id !in asked && c.esi(id).Some?
    requires after.redis ==
             if !IsNull(c.esi(id).value) && c.redisGiven && id in c.lands
             then at.redis[CacheKey(c.prefix, id) := c.esi(id).value] else at.redis
    ensures SettledAt(before, after, c, asked + {id}, i)
  {
    hide CacheKey, IsNull, FromMongo, FromRedis;
    if i != id && CacheKey(c.prefix, i) == CacheKey(c.prefix, id) {
      CacheKeyInjective(c.prefix, i, c.prefix, id);
      assert false;
    }
  }

  // Agreement with the source behind the tiers

  /** Redis and Mongo hold the source's values, except that Mongo may hold unknown values, such as null
      names, under prefixes whose lookups filter them out. */
  ghost predicate Agrees(t: Tiers, truth: Entry -> Value, filtered: set<string>) {
    && (forall e :: e in t.mongo && (e.prefix in filtered ==> !IsNull(t.mongo[e])) ==> t.mongo[e] == truth(e))
    && (forall e: Entry :: CacheKey(e.prefix, e.id) in t.redis ==> t.redis[CacheKey(e.prefix, e.id)] == truth(e))
  }

  /** The known values in Redis and Mongo are the source's. */
  ghost predicate KnownAgrees(t: Tiers, truth: Entry -> Value) {
    && (forall e :: e in t.mongo && !IsNull(t.mongo[e]) ==> t.mongo[e] == truth(e))
    && (forall e: Entry :: CacheKey(e.prefix, e.id) in t.redis && !IsNull(t.redis[CacheKey(e.prefix, e.id)]) ==>
                             t.redis[CacheKey(e.prefix, e.id)] == truth(e))
  }

  /** Lookups under these prefixes filter unknown values out. */
  predicate Filters(c: Lookup, filtered: set<string>) {
    c.prefix in filtered ==> c.namedOnly
  }

  /** ESI may fail on any id, but what it does say is so. */
  ghost predicate Faithful(c: Lookup, truth: Entry -> Value) {
    forall id :: id in c.ids && c.esi(id).Some? && !IsNull(c.esi(id).value) ==>
                   c.esi(id).value == truth(Entry(c.prefix, id))
  }

  lemma StoredFrom(t: Tiers, c: Lookup, e: Entry)
    requires e.prefix == c.prefix && e.id in Stored(t, c)
    ensures e.id in c.ids
    ensures var k, value := CacheKey(e.prefix, e.id), Stored(t, c)[e.id];
      (k in t.redis && t.redis[k] == value) || (Matches(t.mongo, c, e.id) && t.mongo[e] == value)
  {
    hide CacheKey, IsNull;
  }

  /** Whichever Redis calls fail, an id is answered with the source's value exactly when a tier that
      could be read holds it or ESI gave that value. */
  lemma LookupAgrees(t: Tiers, c: Lookup, truth: Entry -> Value, filtered: set<string>, id: int)
    requires Agrees(t, truth, filtered) && Filters(c, filtered) && id in c.ids
    ensures Answer(t, c, id) == Some(truth(Entry(c.prefix, id))) <==>
            id in Stored(t, c) || c.esi(id) == Some(truth(Entry(c.prefix, id)))
  {
    hide CacheKey, IsNull, Stored;
    if id in Stored(t, c) {
      StoredFrom(t, c, Entry(c.prefix, id));
    }
  }

  /** With nothing but the known values in agreement, a known answer is the source's. */
  lemma KnownAnswersAgree(t: Tiers, c: Lookup, truth: Entry -> Value, id: int)
    requires KnownAgrees(t, truth) && Faithful(c, truth) && id in c.ids
    ensures Answer(t, c, id).Some? && !IsNull(Answer(t, c, id).value) ==>
              Answer(t, c, id).value == truth(Entry(c.prefix, id))
  {
    hide CacheKey, IsNull, Stored;
    if id in Stored(t, c) {
      StoredFrom(t, c, Entry(c.prefix, id));
    }
  }

  /** What a call leaves in Redis under one of its keys: what was there, a document the Mongo read let
      through, or a known reply. */
  lemma CachedFrom(before: Tiers, after: Tiers, c: Lookup, asked: set<int>, e: Entry)
    requires Settled(before, after, c, asked) && asked <= c.ids
    requires CacheKey(e.prefix, e.id) in after.redis
    ensures var k := CacheKey(e.prefix, e.id);
      || (k in before.redis && after.redis[k] == before.redis[k])
      || (e.prefix == c.prefix && Matches(before.mongo, c, e.id) && after.redis[k] == before.mongo[e])
      || (e.prefix == c.prefix && Learned(c, asked, e.id) && after.redis[k] == c.esi(e.id).value)
  {
    hide CacheKey, FromRedis, Keyed, IsNull;
    var k := CacheKey(e.prefix, e.id);
    if k in Looked(c) {
      var id :| id in c.ids && CacheKey(c.prefix, id) == k;
      CacheKeyInjective(e.prefix, e.id, c.prefix, id);
      assert SettledAt(before, after, c, asked, id);
    }
  }

  /** Agreement survives every call, under every prefix, also one that raised half-way. */
  lemma AgreementKept(before: Tiers, after: Tiers, c: Lookup, asked: set<int>, truth: Entry -> Value,
                      filtered: set<string>)
    requires Settled(before, after, c, asked) && asked <= c.ids && Faithful(c, truth)
    ensures Agrees(before, truth, filtered) && Filters(c, filtered) ==> Agrees(after, truth, filtered)
    ensures KnownAgrees(before, truth) ==> KnownAgrees(after, truth)
  {
    hide CacheKey, FromMongo, Keyed, IsNull, SettledAt;
    forall e: Entry | CacheKey(e.prefix, e.id) in after.redis
      ensures var k := CacheKey(e.prefix, e.id);
        || (k in before.redis && after.redis[k] == before.redis[k])
        || (e.prefix == c.prefix && Matches(before.mongo, c, e.id) && after.redis[k] == before.mongo[e])
        || (e.prefix == c.prefix && Learned(c, asked, e.id) && after.redis[k] == c.esi(e.id).value)
    {
      CachedFrom(before, after, c, asked, e);
    }
  }

  /** A failed lookup is stored nowhere: an unknown value was in Mongo before, unchanged, and one in Redis
      was there before, or is Mongo's where the lookup does not filter. */
  lemma FailuresNotStored(before: Tiers, after: Tiers, c: Lookup, asked: set<int>)
    requires Settled(before, after, c, asked) && asked <= c.ids
    ensures forall e ::
              e in after.mongo ==>
                var v := after.mongo[e];
                v == Name(None) || v == Security(None) || (v.Place? && v.placeName == None) ==>
                  e in before.mongo && before.mongo[e] == v
    ensures forall e: Entry ::
              CacheKey(e.prefix, e.id) in after.redis ==>
                var k := CacheKey(e.prefix, e.id);
                var v := after.redis[k];
                v == Name(None) || v == Security(None) || (v.Place? && v.placeName == None) ==>
                  || (k in before.redis && before.redis[k] == v)
                  || (!c.namedOnly && e.prefix == c.prefix && e in before.mongo && before.mongo[e] == v)
  {
    hide CacheKey, FromMongo, Keyed, SettledAt;
    forall e: Entry | CacheKey(e.prefix, e.id) in after.redis && IsNull(after.redis[CacheKey(e.prefix, e.id)])
      ensures var k := CacheKey(e.prefix, e.id);
        || (k in before.redis && before.redis[k] == after.redis[k])
        || (!c.namedOnly && e.prefix == c.prefix && e in before.mongo && before.mongo[e] == after.redis[k])
    {
      CachedFrom(before, after, c, asked, e);
    }
  }

  /** Where the lookup filters, a stored null that Redis does not hide is no answer: ESI is asked. */
  lemma StoredNullIsNoAnswer(t: Tiers, c: Lookup, id: int)
    requires c.namedOnly && id in c.ids && id !in FromRedis(t, c)
    requires Entry(c.prefix, id) in t.mongo && IsNull(t.mongo[Entry(c.prefix, id)])
    ensures id !in Stored(t, c) && Answer(t, c, id) == c.esi(id)
  {
    hide CacheKey, IsNull;
  }

  // Any number of lookups, one after the other, under any prefixes

  /** What one call did: the lookup and the ids ESI replied for. */
  datatype Done = Done(lookup: Lookup, asked: set<int>)

  ghost predicate Session(states: seq<Tiers>, calls: seq<Done>) {
    && |states| == |calls| + 1
    && forall i :: 0 <= i < |calls| ==> SessionStep(states[i], calls[i], states[i + 1])
  }

  /** Redis may drop entries at any time between two calls. */
  ghost predicate Evicted(before: Tiers, after: Tiers) {
    && after.mongo == before.mongo
    && forall k :: k in after.redis ==> k in before.redis && after.redis[k] == before.redis[k]
  }

  ghost predicate SessionStep(before: Tiers, call: Done, next: Tiers) {
    && call.asked <= call.lookup.ids - Stored(before, call.lookup).Keys
    && exists after :: Settled(before, after, call.lookup, call.asked) && Evicted(after, next)
  }

  ghost predicate AllFaithful(calls: seq<Done>, truth: Entry -> Value) {
    forall i :: 0 <= i < |calls| ==> Faithful(calls[i].lookup, truth)
  }

  /** A prefix's lookups all filter, or none does. */
  predicate Consistent(calls: seq<Done>, filtered: set<string>) {
    forall i :: 0 <= i < |calls| ==> (calls[i].lookup.namedOnly <==> calls[i].lookup.prefix in filtered)
  }

  lemma EvictionKeeps(before: Tiers, after: Tiers, truth: Entry -> Value, filtered: set<string>)
    requires Evicted(before, after)
    ensures Agrees(before, truth, filtered) ==> Agrees(after, truth, filtered)
    ensures KnownAgrees(before, truth) ==> KnownAgrees(after, truth)
  {
    hide CacheKey, IsNull;
  }

  lemma {:induction false} SessionKeeps(states: seq<Tiers>, calls: seq<Done>, truth: Entry -> Value,
                                        filtered: set<string>, i: nat)
    requires Session(states, calls) && AllFaithful(calls, truth) && i < |states|
    ensures Agrees(states[0], truth, filtered) && Consistent(calls, filtered) ==> Agrees(states[i], truth, filtered)
    ensures KnownAgrees(states[0], truth) ==> KnownAgrees(states[i], truth)
  {
    hide Settled, Agrees, KnownAgrees, Stored, Faithful, Evicted;
    if i > 0 {
      SessionKeeps(states, calls, truth, filtered, i - 1);
      var call := calls[i - 1];
      assert SessionStep(states[i - 1], call, states[i]);
      var after :| Settled(states[i - 1], after, call.lookup, call.asked) && Evicted(after, states[i]);
      AgreementKept(states[i - 1], after, call.lookup, call.asked, truth, filtered);
      EvictionKeeps(after, states[i], truth, filtered);
    }
  }

  /** Through any session with any Redis and ESI failures, no lookup ever answers a known value that is
      not the source's. Only the known values stored at the start need be the source's; stored nulls
      may say anything. */
  lemma NoSessionAnswersWrong(states: seq<Tiers>, calls: seq<Done>, truth: Entry -> Value, i: nat, id: int)
    requires Session(states, calls) && AllFaithful(calls, truth) && i < |calls|
    requires KnownAgrees(states[0], truth)
    ensures var c := calls[i].lookup;
      id in c.ids && Answer(states[i], c, id).Some? && !IsNull(Answer(states[i], c, id).value) ==>
        Answer(states[i], c, id).value == truth(Entry(c.prefix, id))
  {
    hide Settled, KnownAgrees, Stored, IsNull, Answer;
    SessionKeeps(states, calls, truth, {}, i);
    if id in calls[i].lookup.ids {
      KnownAnswersAgree(states[i], calls[i].lookup, truth, id);
    }
  }

  /** Mongo loses no entry, and no known value gives way to an unknown one. */
  lemma {:induction false} MongoKeeps(states: seq<Tiers>, calls: seq<Done>, e: Entry, i: nat, j: nat)
    requires Session(states, calls) && i <= j < |states| && e in states[i].mongo
    ensures e in states[j].mongo && (!IsNull(states[i].mongo[e]) ==> !IsNull(states[j].mongo[e]))
    decreases j - i
  {
    hide IsNull;
    if i < j {
      assert SessionStep(states[i], calls[i], states[i + 1]);
      MongoKeeps(states, calls, e, i + 1, j);
    }
  }

  /** What a call had from Mongo or learned from ESI is in Mongo afterwards, and passes its filter. */
  lemma KeptInMongo(before: Tiers, call: Done, next: Tiers, id: int)
    requires SessionStep(before, call, next)
    requires id in FromMongo(before, call.lookup) || Learned(call.lookup, call.asked, id)
    ensures Matches(next.mongo, call.lookup, id)
  {
    hide CacheKey, IsNull, FromRedis;
  }

  /** What a lookup had from Mongo, or learned from ESI, is never asked of ESI again in the session:
      whatever Redis drops or refuses, a later lookup finds the source's value in the stores. */
  lemma AskedOnce(states: seq<Tiers>, calls: seq<Done>, truth: Entry -> Value, filtered: set<string>,
                  i: nat, j: nat, id: int)
    requires Session(states, calls) && AllFaithful(calls, truth) && Consistent(calls, filtered) && i < j < |calls|
    requires Agrees(states[0], truth, filtered)
    requires id in FromMongo(states[i], calls[i].lookup) || Learned(calls[i].lookup, calls[i].asked, id)
    requires calls[j].lookup.prefix == calls[i].lookup.prefix && id in calls[j].lookup.ids
    ensures var again := calls[j].lookup;
      && id !in calls[j].asked
      && id in Stored(states[j], again)
      && Stored(states[j], again)[id] == truth(Entry(again.prefix, id))
  {
    hide CacheKey, IsNull, Agrees, Settled, Learned, FromRedis, Evicted;
    var c, again := calls[i].lookup, calls[j].lookup;
    assert SessionStep(states[i], calls[i], states[i + 1]) && SessionStep(states[j], calls[j], states[j + 1]);
    KeptInMongo(states[i], calls[i], states[i + 1], id);
    MongoKeeps(states, calls, Entry(c.prefix, id), i + 1, j);
    SessionKeeps(states, calls, truth, filtered, j);
    assert Matches(states[j].mongo, again, id);
    LookupAgrees(states[j], again, truth, filtered, id);
  }

  /** A stored null under a filtered prefix that Redis does not hide is asked again by a call that
      finishes, and a known reply replaces it for the rest of the session. */
  lemma StoredNullIsReplaced(states: seq<Tiers>, calls: seq<Done>, truth: Entry -> Value, i: nat, j: nat, id: int)
    requires Session(states, calls) && AllFaithful(calls, truth) && KnownAgrees(states[0], truth) && i < j < |states|
    requires var c, e := calls[i].lookup, Entry(calls[i].lookup.prefix, id);
      && c.namedOnly && id in c.ids && id !in FromRedis(states[i], c)
      && e in states[i].mongo
      && var v := states[i].mongo[e]; v == Name(None) || v == Security(None) || (v.Place? && v.placeName == None)
    requires calls[i].asked == calls[i].lookup.ids - Stored(states[i], calls[i].lookup).Keys
    ensures var c, e := calls[i].lookup, Entry(calls[i].lookup.prefix, id);
      && id in calls[i].asked
      && (c.esi(id).Some? ==>
            var v := c.esi(id).value;
            v != Name(None) && v != Security(None) && (v.Place? ==> v.placeName != None) ==>
              e in states[j].mongo && !IsNull(states[j].mongo[e]) && states[j].mongo[e] == truth(e))
  {
    NullLiterals();
    hide CacheKey, IsNull, KnownAgrees, Settled, FromRedis, Evicted;
    var c, e := calls[i].lookup, Entry(calls[i].lookup.prefix, id);
    StoredNullIsNoAnswer(states[i], c, id);
    if c.esi(id).Some? && !IsNull(c.esi(id).value) {
      assert SessionStep(states[i], calls[i], states[i + 1]);
      KeptInMongo(states[i], calls[i], states[i + 1], id);
      MongoKeeps(states, calls, e, i + 1, j);
      SessionKeeps(states, calls, truth, {}, j);
      KnownEntry(states[j], truth, e);
    }
  }

  lemma NullLiterals()
    ensures forall v :: IsNull(v) <==> v == Name(None) || v == Security(None) || (v.Place? && v.placeName == None)
  {
  }

  lemma KnownEntry(t: Tiers, truth: Entry -> Value, e: Entry)
    requires KnownAgrees(t, truth) && e in t.mongo && !IsNull(t.mongo[e])
    ensures t.mongo[e] == truth(e)
  {
  }

  /** `cached_docs_by_id`, for which the collection is the source: with a cache that holds nothing the
      collection does not, the result is the collection's documents, whichever Redis calls fail. */
  lemma DocsAreTheCollections(t: Tiers, c: Lookup)
    requires !c.namedOnly
    requires forall id :: CacheKey(c.prefix, id) in t.redis ==>
               Entry(c.prefix, id) in t.mongo && t.redis[CacheKey(c.prefix, id)] == t.mongo[Entry(c.prefix, id)]
    ensures forall id :: id in Stored(t, c) <==> id in c.ids && Entry(c.prefix, id) in t.mongo
    ensures forall id :: id in Stored(t, c) ==> Stored(t, c)[id] == t.mongo[Entry(c.prefix, id)]
  {
    forall id
      ensures id in Stored(t, c) <==> id in c.ids && Entry(c.prefix, id) in t.mongo
    {
      assert id in Stored(t, c) <==> id in FromRedis(t, c) || id in FromMongo(t, c);
    }
  }

  // resolve_location_info

  datatype LocationInfo = LocationInfo(name: Option<string>, security: Option<real>)

  function PlaceName(v: Value): Option<string> {
    if v.Place? then v.placeName else None
  }

  function PlaceSystem(v: Value): Option<int> {
    if v.Place? then v.systemId else None
  }

  function StatusOf(v: Value): Option<real> {
    if v.Security? then v.status else None
  }

  function Systems(places: map<int, Value>): set<int> {
    set id | id in places && PlaceSystem(places[id]).Some? :: PlaceSystem(places[id]).value
  }

  function InfoOf(place: Value, status: map<int, Value>): LocationInfo {
    var s := PlaceSystem(place);
    LocationInfo(PlaceName(place), if s.Some? && s.value in status then StatusOf(status[s.value]) else None)
  }

  function Infos(places: map<int, Value>, status: map<int, Value>): map<int, LocationInfo> {
    map id | id in places :: InfoOf(places[id], status)
  }

  const PLACES := "location_details"
  const STATUSES := "system_security"

  /** Only the location lookup filters stored nulls out. */
  const FILTERED: set<string> := {PLACES}

  ghost function TrueInfo(truth: Entry -> Value, id: int): LocationInfo {
    var place := truth(Entry(PLACES, id));
    LocationInfo(PlaceName(place),
                 if PlaceSystem(place).Some? then StatusOf(truth(Entry(STATUSES, PlaceSystem(place).value))) else None)
  }

  /** ESI replies, and truthfully. */
  ghost predicate Truthful(esi: int -> Option<Value>, prefix: string, truth: Entry -> Value) {
    forall id :: esi(id) == Some(truth(Entry(prefix, id)))
  }

  lemma AnsweredTruly(before: Tiers, after: Tiers, c: Lookup, asked: set<int>, esi: int -> Option<Value>,
                      truth: Entry -> Value)
    requires Settled(before, after, c, asked) && asked <= c.ids && c.esi == esi && Filters(c, FILTERED)
    ensures Agrees(before, truth, FILTERED) && Truthful(esi, c.prefix, truth) ==>
              && Agrees(after, truth, FILTERED)
              && forall id :: id in c.ids ==> Answer(before, c, id) == Some(truth(Entry(c.prefix, id)))
  {
    hide Settled, Agrees, KnownAgrees, Stored, Answer, IsNull;
    if Agrees(before, truth, FILTERED) && Truthful(esi, c.prefix, truth) {
      AgreementKept(before, after, c, asked, truth, FILTERED);
      forall id | id in c.ids
        ensures Answer(before, c, id) == Some(truth(Entry(c.prefix, id)))
      {
        LookupAgrees(before, c, truth, FILTERED, id);
      }
    }
  }

  /** ESI may fail, but what it does say is so. */
  ghost predicate Reliable(esi: int -> Option<Value>, prefix: string, truth: Entry -> Value) {
    forall id :: esi(id).Some? && !IsNull(esi(id).value) ==> esi(id).value == truth(Entry(prefix, id))
  }

  lemma AnsweredReliably(before: Tiers, after: Tiers, c: Lookup, asked: set<int>, esi: int -> Option<Value>,
                         truth: Entry -> Value)
    requires Settled(before, after, c, asked) && asked <= c.ids && c.esi == esi
    ensures KnownAgrees(before, truth) && Reliable(esi, c.prefix, truth) ==>
              && KnownAgrees(after, truth)
              && forall id :: id in c.ids && Answer(before, c, id).Some? && !IsNull(Answer(before, c, id).value) ==>
                                Answer(before, c, id).value == truth(Entry(c.prefix, id))
  {
    hide Settled, Agrees, KnownAgrees, Stored, Answer, IsNull;
    if KnownAgrees(before, truth) && Reliable(esi, c.prefix, truth) {
      AgreementKept(before, after, c, asked, truth, FILTERED);
      forall id | id in c.ids && Answer(before, c, id).Some? && !IsNull(Answer(before, c, id).value)
        ensures Answer(before, c, id).value == truth(Entry(c.prefix, id))
      {
        KnownAnswersAgree(before, c, truth, id);
      }
    }
  }

  /** A location that is named has its own name, and no other system's status. */
  ghost predicate NotWrong(info: LocationInfo, truth: Entry -> Value, id: int) {
    info.name.Some? ==>
      && info.name == TrueInfo(truth, id).name
      && (info.security.Some? ==> info.security == TrueInfo(truth, id).security)
  }

  /** The place's name and the status of its system, as the source has them. */
  ghost predicate IsInfoOf(truth: Entry -> Value, id: int, info: LocationInfo) {
    var place := truth(Entry("location_details", id));
    place.Place? ==>
      && info.name == place.placeName
      && (place.systemId.None? ==> info.security == None)
      && (place.systemId.Some? ==>
            var status := truth(Entry("system_security", place.systemId.value));
            status.Security? ==> info.security == status.status)
  }

  /** A name, and a status beside it, are those the source has. */
  ghost predicate NothingWrong(truth: Entry -> Value, id: int, info: LocationInfo) {
    var place := truth(Entry("location_details", id));
    info.name.Some? ==>
      && place.Place? && place.placeName == info.name
      && (info.security.Some? ==>
            place.systemId.Some? &&
            truth(Entry("system_security", place.systemId.value)) == Security(info.security))
  }

  lemma InfoIsTrue(truth: Entry -> Value, id: int)
    ensures IsInfoOf(truth, id, TrueInfo(truth, id))
    ensures forall info :: NotWrong(info, truth, id) ==> NothingWrong(truth, id, info)
  {
  }

  ghost predicate TellsTruth(answers: map<int, Value>, prefix: string, truth: Entry -> Value) {
    forall id :: id in answers ==> answers[id] == truth(Entry(prefix, id))
  }

  ghost predicate TellsNoLie(answers: map<int, Value>, prefix: string, truth: Entry -> Value) {
    forall id :: id in answers && !IsNull(answers[id]) ==> answers[id] == truth(Entry(prefix, id))
  }

  /** Every id asked for is answered, or no id is. */
  ghost predicate AnswersAll(before: Tiers, c: Lookup, resolved: Option<map<int, Value>>) {
    if resolved.None? then
      exists id :: id in c.ids && Answer(before, c, id).None?
    else
      && resolved.value.Keys == c.ids
      && forall id :: id in c.ids ==> Answer(before, c, id) == Some(resolved.value[id])
  }

  lemma ResolvedTruly(before: Tiers, after: Tiers, c: Lookup, asked: set<int>, resolved: Option<map<int, Value>>,
                      truth: Entry -> Value)
    requires Settled(before, after, c, asked) && asked <= c.ids && Filters(c, FILTERED)
    requires AnswersAll(before, c, resolved)
    ensures Agrees(before, truth, FILTERED) && Truthful(c.esi, c.prefix, truth) ==>
              && Agrees(after, truth, FILTERED)
              && resolved.Some? && TellsTruth(resolved.value, c.prefix, truth)
  {
    hide Settled, Agrees, Truthful, Stored, Answer, IsNull;
    AnsweredTruly(before, after, c, asked, c.esi, truth);
  }

  lemma ResolvedReliably(before: Tiers, after: Tiers, c: Lookup, asked: set<int>, resolved: Option<map<int, Value>>,
                         truth: Entry -> Value)
    requires Settled(before, after, c, asked) && asked <= c.ids && AnswersAll(before, c, resolved)
    ensures KnownAgrees(before, truth) && Reliable(c.esi, c.prefix, truth) ==>
              && KnownAgrees(after, truth)
              && (resolved.Some? ==> TellsNoLie(resolved.value, c.prefix, truth))
  {
    hide Settled, KnownAgrees, Reliable, Stored, Answer, IsNull;
    AnsweredReliably(before, after, c, asked, c.esi, truth);
  }

  lemma InfosTellTruth(places: map<int, Value>, status: map<int, Value>, truth: Entry -> Value)
    requires status.Keys == Systems(places)
    requires TellsTruth(places, PLACES, truth) && TellsTruth(status, STATUSES, truth)
    ensures forall id :: id in places ==>
              Infos(places, status)[id] == TrueInfo(truth, id) && IsInfoOf(truth, id, Infos(places, status)[id])
  {
    hide IsInfoOf;
    forall id | id in places
      ensures Infos(places, status)[id] == TrueInfo(truth, id) && IsInfoOf(truth, id, Infos(places, status)[id])
    {
      InfoIsTrue(truth, id);
    }
  }

  lemma InfosTellNoLie(places: map<int, Value>, status: map<int, Value>, truth: Entry -> Value)
    requires status.Keys == Systems(places)
    requires TellsNoLie(places, PLACES, truth) && TellsNoLie(status, STATUSES, truth)
    ensures forall id :: id in places ==>
              && NotWrong(Infos(places, status)[id], truth, id)
              && NothingWrong(truth, id, Infos(places, status)[id])
  {
    hide NothingWrong;
    forall id | id in places
      ensures NotWrong(Infos(places, status)[id], truth, id)
      ensures NothingWrong(truth, id, Infos(places, status)[id])
    {
      InfoIsTrue(truth, id);
    }
  }

  /** The names and system ids first, then the statuses of the systems those name. With tiers in
      agreement and ESI answering, each location gets its own name and its own system's status,
      whichever Redis calls fail. With ESI failing at will and only the known stored values in agreement,
      it still gets nothing wrong. */
  method ResolveLocationInfo(stores: Stores, places: Lookup, statuses: Lookup, ghost truth: Entry -> Value)
    returns (info: Option<map<int, LocationInfo>>)
    requires places.prefix == PLACES && places.namedOnly && statuses.prefix == STATUSES
    modifies stores
    ensures info.Some? ==> info.value.Keys == places.ids
    ensures (Agrees(old(stores.State()), truth, FILTERED) && Truthful(places.esi, PLACES, truth)
             && Truthful(statuses.esi, STATUSES, truth))
            ==> (info.Some? && Agrees(stores.State(), truth, FILTERED)
                 && forall id :: id in places.ids ==>
                      info.value[id] == TrueInfo(truth, id) && IsInfoOf(truth, id, info.value[id]))
    ensures (KnownAgrees(old(stores.State()), truth) && Reliable(places.esi, PLACES, truth)
             && Reliable(statuses.esi, STATUSES, truth))
            ==> (KnownAgrees(stores.State(), truth)
                 && (info.Some? ==> forall id :: id in places.ids ==>
                       NotWrong(info.value[id], truth, id) && NothingWrong(truth, id, info.value[id])))
  {
    hide AnsweredByTiers, IsInfoOf, NothingWrong, NotWrong, TrueInfo, TellsTruth, TellsNoLie;
    hide Settled, Stored, CacheKey, Answer, Agrees, KnownAgrees, Truthful, Reliable;
    assert PLACES != STATUSES;
    ghost var before := stores.State();
    ghost var asked, asked';
    var found, security;
    found, asked := stores.ResolveTiered(places);
    ghost var between := stores.State();
    ResolvedReliably(before, between, places, asked, found, truth);
    ResolvedTruly(before, between, places, asked, found, truth);
    if found.None? {
      return None;
    }
    var byLocation := found.value;
    var second := statuses.(ids := Systems(byLocation));
    security, asked' := stores.ResolveTiered(second);
    ResolvedReliably(between, stores.State(), second, asked', security, truth);
    ResolvedTruly(between, stores.State(), second, asked', security, truth);
    if security.None? {
      return None;
    }
    info := Some(Infos(byLocation, security.value));
    if TellsTruth(byLocation, PLACES, truth) && TellsTruth(security.value, STATUSES, truth) {
      InfosTellTruth(byLocation, security.value, truth);
    }
    if TellsNoLie(byLocation, PLACES, truth) && TellsNoLie(security.value, STATUSES, truth) {
      InfosTellNoLie(byLocation, security.value, truth);
    }
  }
}
