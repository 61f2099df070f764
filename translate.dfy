/**
 * The Youdao translation client of src/translate.py: the signature input,
 * the authentication parameters added to a request, and the translator
 * object with its cache of past translations and its last-call clock.
 *
 * Hashing (SHA-256 for the signature, MD5 for the cache key), the `uuid1`
 * salt, the clock, JSON decoding and the HTTP request are outside the
 * model: the hash functions and the decoder are function parameters, the
 * salt and the clock readings are arguments, and the reply is reduced to
 * its kind: no reply, a body that is not JSON, or JSON with or without a
 * translation. The cache key hashes the payload as a map, without the
 * order of its keys. Sleeping is returned as the list of durations slept;
 * the cache file is the list of items appended to it.
 */
module Translate {
  import opened Wrappers
  import opened Text

  // --------------------------------------------------------- signature

  /** `getInput`: a query longer than 20 characters is cut to its ends around its length. */
  function Shorten(q: string): (r: string)
    ensures |q| <= 20 ==> r == q
    ensures |q| > 20 ==> |r| == 20 + |NatToString(|q|)|
    ensures |q| > 20 ==> r[..10] == q[..10] && r[|r| - 10..] == q[|q| - 10..]
  {
    if |q| <= 20 then q else q[..10] + NatToString(|q|) + q[|q| - 10..]
  }

  /** `getInput`: `None` passes through, and a query is shortened. */
  function GetInput(input: Option<string>): (r: Option<string>)
    ensures r.None? <==> input.None?
    ensures input.Some? ==> r == Some(Shorten(input.value))
  {
    match input
    case None => None
    case Some(q) => Some(Shorten(q))
  }

  /** The middle of a shortened query spells its original length in decimal. */
  lemma ShortenKeepsLength(q: string)
    requires |q| > 20
    ensures var r := Shorten(q); AllDigits(r[10..|r| - 10]) && DecimalValue(r[10..|r| - 10]) == |q|
  {
    var r := Shorten(q);
    var d := NatToString(|q|);
    assert r[10..|r| - 10] == d;
    DecimalValueOfNatToString(|q|);
  }

  /** `calculateSign`: the hash of key, shortened query, salt, time and secret. */
  function CalculateSign(sha256: string -> string, appKey: string, appSecret: string, q: string, salt: string, curtime: string): string {
    sha256(appKey + GetInput(Some(q)).value + salt + curtime + appSecret)
  }

  /** Two long queries that agree on their first and last ten characters and their length are signed alike. */
  lemma SignIgnoresMiddle(sha256: string -> string, appKey: string, appSecret: string, q1: string, q2: string, salt: string, curtime: string)
    requires |q1| == |q2| > 20 && q1[..10] == q2[..10] && q1[|q1| - 10..] == q2[|q2| - 10..]
    ensures CalculateSign(sha256, appKey, appSecret, q1, salt, curtime) == CalculateSign(sha256, appKey, appSecret, q2, salt, curtime)
  {
  }

  // ------------------------------------------------------- auth params

  /** The keys `addAuthParams` sets. */
  const AuthKeys: set<string> := {"appKey", "salt", "curtime", "signType", "sign"}

  /** The query `addAuthParams` signs: `q`, or `img` when there is no `q`. */
  function Query(params: map<string, string>): Option<string> {
    if "q" in params then Some(params["q"])
    else if "img" in params then Some(params["img"])
    else None
  }

  /**
   * The request parameters after `addAuthParams`; `None` when the request
   * has neither `q` nor `img`, where `"".join(None)` raises.
   */
  function WithAuth(params: map<string, string>, sha256: string -> string, appKey: string, appSecret: string, salt: string, curtime: string): (r: Option<map<string, string>>)
    ensures r.Some? <==> "q" in params || "img" in params
    ensures r.Some? ==> r.value.Keys == params.Keys + AuthKeys
    ensures r.Some? ==> forall k :: k in params && k !in AuthKeys ==> r.value[k] == params[k]
    ensures r.Some? ==> r.value["appKey"] == appKey && r.value["salt"] == salt && r.value["curtime"] == curtime
    ensures r.Some? ==> r.value["signType"] == "v3"
    ensures r.Some? ==> r.value["sign"] == CalculateSign(sha256, appKey, appSecret, Query(params).value, salt, curtime)
  {
    match Query(params)
    case None => None
    case Some(q) =>
      Some(params["appKey" := appKey]["salt" := salt]["curtime" := curtime]["signType" := "v3"]
        ["sign" := CalculateSign(sha256, appKey, appSecret, q, salt, curtime)])
  }

  /** A request map that `addAuthParams` updates in place. */
  class Params {
    var entries: map<string, string>

    constructor(entries: map<string, string>)
      ensures this.entries == entries
    {
      this.entries := entries;
    }
  }

  /** `addAuthParams`: `false` when it raises, the parameters then being left as they were. */
  method AddAuthParams(appKey: string, appSecret: string, params: Params, sha256: string -> string, salt: string, curtime: string)
    returns (ok: bool)
    modifies params
    ensures ok <==> WithAuth(old(params.entries), sha256, appKey, appSecret, salt, curtime).Some?
    ensures ok ==> params.entries == WithAuth(old(params.entries), sha256, appKey, appSecret, salt, curtime).value
    ensures !ok ==> params.entries == old(params.entries)
  {
    var q: Option<string> := None;
    if "q" in params.entries {
      q := Some(params.entries["q"]);
    }
    if q.None? && "img" in params.entries {
      q := Some(params.entries["img"]);
    }
    if q.None? {
      return false;
    }
    var sign := CalculateSign(sha256, appKey, appSecret, q.value, salt, curtime);
    params.entries := params.entries["appKey" := appKey];
    params.entries := params.entries["salt" := salt];
    params.entries := params.entries["curtime" := curtime];
    params.entries := params.entries["signType" := "v3"];
    params.entries := params.entries["sign" := sign];
    ok := true;
  }

  // --------------------------------------------------------- the cache

  /** A cached item, as the JSON object on one line of the cache file. */
  type Item = map<string, string>

  /** Why loading the cache file raised. */
  datatype LoadFault =
    | BadLine(line: nat)   // `json.loads` raised
    | NoId(line: nat)      // the item has no `id`

  /** The cache the first `|lines|` lines of the file build. */
  function CacheOf(lines: seq<string>, decode: string -> Option<Item>): Result<map<string, Item>, LoadFault>
    decreases |lines|
  {
    if lines == [] then Success(map[])
    else
      var n := |lines| - 1;
      match CacheOf(lines[..n], decode)
      case Failure(e) => Failure(e)
      case Success(cache) =>
        if |Strip(lines[n])| == 0 then Success(cache)
        else match decode(lines[n])
          case None => Failure(BadLine(n))
          case Some(item) =>
            if "id" in item then Success(cache[item["id"] := item]) else Failure(NoId(n))
  }

  /** Every cached item is stored under its own `id`. */
  predicate KeyedById(cache: map<string, Item>) {
    forall k :: k in cache ==> "id" in cache[k] && cache[k]["id"] == k
  }

  /** The loaded cache keys every item by its `id`. */
  lemma {:induction false} CacheOfKeyedById(lines: seq<string>, decode: string -> Option<Item>)
    requires CacheOf(lines, decode).Success?
    ensures KeyedById(CacheOf(lines, decode).value)
    decreases |lines|
  {
    if lines != [] {
      CacheOfKeyedById(lines[..|lines| - 1], decode);
    }
  }

  /** A blank line changes nothing. */
  lemma BlankLineSkipped(lines: seq<string>, line: string, decode: string -> Option<Item>)
    requires |Strip(line)| == 0
    ensures CacheOf(lines + [line], decode) == CacheOf(lines, decode)
  {
    assert (lines + [line])[..|lines|] == lines;
  }

  /** A later line with the same `id` replaces the earlier item; the other items stay. */
  lemma LaterLineWins(lines: seq<string>, line: string, decode: string -> Option<Item>)
    requires CacheOf(lines, decode).Success?
    requires |Strip(line)| != 0 && decode(line).Some? && "id" in decode(line).value
    ensures CacheOf(lines + [line], decode).Success?
    ensures var item := decode(line).value; var cache := CacheOf(lines + [line], decode).value;
      && cache[item["id"]] == item
      && forall k :: k in CacheOf(lines, decode).value && k != item["id"] ==> k in cache && cache[k] == CacheOf(lines, decode).value[k]
  {
    assert (lines + [line])[..|lines|] == lines;
  }

  /** The construction loop over the cache file's lines. */
  method LoadCache(lines: seq<string>, decode: string -> Option<Item>) returns (r: Result<map<string, Item>, LoadFault>)
    ensures r == CacheOf(lines, decode)
  {
    var cache: map<string, Item> := map[];
    for i := 0 to |lines|
      invariant CacheOf(lines[..i], decode) == Success(cache)
    {
      assert lines[..i + 1][..i] == lines[..i];
      var line := lines[i];
      if |Strip(line)| == 0 {
        continue;
      }
      var item := decode(line);
      if item.None? {
        r := Failure(BadLine(i));
        LoadStopped(lines, i + 1, decode);
        assert lines[..|lines|] == lines;
        return;
      }
      if "id" !in item.value {
        r := Failure(NoId(i));
        LoadStopped(lines, i + 1, decode);
        assert lines[..|lines|] == lines;
        return;
      }
      cache := cache[item.value["id"] := item.value];
    }
    assert lines[..|lines|] == lines;
    r := Success(cache);
  }

  /** Once a line has raised, the later lines are not read. */
  lemma {:induction false} LoadStopped(lines: seq<string>, n: nat, decode: string -> Option<Item>)
    requires n <= |lines| && CacheOf(lines[..n], decode).Failure?
    ensures CacheOf(lines[..|lines|], decode) == CacheOf(lines[..n], decode)
    decreases |lines| - n
  {
    if n < |lines| {
      assert lines[..n + 1][..n] == lines[..n];
      LoadStopped(lines, n + 1, decode);
    }
  }

  // --------------------------------------------------------- translate

  /** `'zh'` stands for simplified Chinese. */
  function Lang(code: string): (r: string)
    ensures code == "zh" ==> r == "zh-CHS"
    ensures code != "zh" ==> r == code
  {
    if code == "zh" then "zh-CHS" else code
  }

  /** The request before authentication; the extra keyword arguments override the named ones. */
  function Payload(text: string, src: string, dst: string, domain: string, kwargs: map<string, string>): (r: map<string, string>)
    ensures r.Keys == {"q", "from", "to", "domain"} + kwargs.Keys
    ensures forall k :: k in kwargs ==> r[k] == kwargs[k]
    ensures "q" !in kwargs ==> r["q"] == text
    ensures "from" !in kwargs ==> r["from"] == Lang(src)
    ensures "to" !in kwargs ==> r["to"] == Lang(dst)
    ensures "domain" !in kwargs ==> r["domain"] == domain
  {
    map["q" := text, "from" := Lang(src), "to" := Lang(dst), "domain" := domain] + kwargs
  }

  /** The item `translate` builds from a reply: text, translation, direction and domain, then the extra arguments. */
  function ReplyItem(text: string, translation: string, src: string, dst: string, domain: string, kwargs: map<string, string>): (r: Item)
    ensures r.Keys == {"text", "translation", "type", "domain"} + kwargs.Keys
    ensures "text" !in kwargs ==> r["text"] == text
    ensures "translation" !in kwargs ==> r["translation"] == translation
    ensures "type" !in kwargs ==> r["type"] == Lang(src) + "2" + Lang(dst)
    ensures "domain" !in kwargs ==> r["domain"] == domain
    ensures forall k :: k in kwargs ==> r[k] == kwargs[k]
  {
    map["text" := text, "translation" := translation, "type" := Lang(src) + "2" + Lang(dst), "domain" := domain] + kwargs
  }

  /** How `translate` ended without a translation. */
  datatype TranslateFault =
    | PostFailed             // `requests.post` raised
    | NotJson                // the reply is not JSON: `response.json()` raised, again in the `except` clause
    | NoTranslation          // the JSON reply held none, also after the wait
    | CachedWithout(key: string)  // the cached item has no `translation`

  /** What the server's reply turned out to be. */
  datatype Reply =
    | Unsent                              // `requests.post` raised
    | Unparsable                          // a body that is not JSON
    | Parsed(translation: Option<string>) // JSON, with `['translation'][0]` when it has one

  /** The fault a reply without a translation ends `translate` with. */
  function ReplyFault(reply: Reply): TranslateFault {
    match reply
    case Unsent => PostFailed
    case Unparsable => NotJson
    case Parsed(_) => NoTranslation
  }

  /**
   * The `except` clause sleeps `5 * delta_t` only when its own
   * `response.json()` succeeded, that is for a JSON reply, and only when
   * `delta_t > 0`; a failed post never reaches it.
   */
  function RetrySleep(reply: Reply, deltaT: int): seq<int> {
    if reply.Parsed? && deltaT > 0 then [5 * deltaT] else []
  }

  /** The reply carries a translation. */
  predicate Translated(reply: Reply) {
    reply.Parsed? && reply.translation.Some?
  }

  /**
   * The throttle as written: the time since the last recorded call is
   * `now - latest`; when it is under `deltaT` the client sleeps the rest
   * and records the time it wakes at, and otherwise records nothing.
   */
  function Throttle(latest: int, deltaT: int, now: int, woke: int): (r: (seq<int>, int))
    ensures now - latest < deltaT ==> r == ([deltaT - (now - latest)], woke)
    ensures now - latest >= deltaT ==> r == ([], latest)
  {
    if now - latest < deltaT then ([deltaT - (now - latest)], woke) else ([], latest)
  }

  /**
   * Once a call finds the recorded time `deltaT` or more in the past, the
   * recorded time stays, so every later call finds it so too and is not
   * delayed, however close together the calls come.
   */
  lemma ThrottleStaysOff(latest: int, deltaT: int, now1: int, woke1: int, now2: int, woke2: int)
    requires now1 - latest >= deltaT && now2 >= now1
    ensures Throttle(latest, deltaT, now1, woke1).1 == latest
    ensures Throttle(Throttle(latest, deltaT, now1, woke1).1, deltaT, now2, woke2).0 == []
  {
  }

  /** A sleep, when there is one, is positive and never longer than `deltaT`. */
  lemma ThrottleSleepBounded(latest: int, deltaT: int, now: int, woke: int)
    requires now >= latest
    ensures forall k :: 0 <= k < |Throttle(latest, deltaT, now, woke).0| ==>
      0 < Throttle(latest, deltaT, now, woke).0[k] <= deltaT
  {
  }

  /** `YoudaoTranslator`. */
  class Translator {
    var cache: map<string, Item>
    /** The items appended to the cache file, in order. */
    var journal: seq<Item>
    var latest: int
    const deltaT: int
    const apiKey: string
    const apiSecret: string

    predicate Valid()
      reads this
    {
      KeyedById(cache)
    }

    /**
     * `__init__`, given the lines of the cache file (none when it does not exist), the JSON
     * decoder and the time of construction. A line that makes `json.loads` or `item['id']`
     * raise makes `__init__` raise, so no translator exists for such lines.
     */
    constructor(apiKey: string, apiSecret: string, deltaT: int, now: int, lines: seq<string>, decode: string -> Option<Item>)
      requires CacheOf(lines, decode).Success?
      ensures Valid()
      ensures this.apiKey == apiKey && this.apiSecret == apiSecret && this.deltaT == deltaT
      ensures cache == CacheOf(lines, decode).value && journal == [] && latest == now
    {
      this.apiKey := apiKey;
      this.apiSecret := apiSecret;
      this.deltaT := deltaT;
      var loaded := LoadCache(lines, decode);
      CacheOfKeyedById(lines, decode);
      cache := loaded.value;
      journal := [];
      latest := now;
    }

    /** `_cache_translate`: the item, tagged with its key, is cached and appended to the file. */
    method CacheTranslate(key: string, item: Item)
      requires Valid()
      modifies this
      ensures Valid()
      ensures cache == old(cache)[key := item["id" := key]]
      ensures journal == old(journal) + [item["id" := key]]
      ensures latest == old(latest)
    {
      var tagged := item["id" := key];
      cache := cache[key := tagged];
      journal := journal + [tagged];
    }

    /** The throttle at the head of a call that missed the cache. */
    method Wait(now: int, woke: int) returns (pause: seq<int>)
      modifies this
      ensures (pause, latest) == Throttle(old(latest), deltaT, now, woke)
      ensures cache == old(cache) && journal == old(journal)
    {
      pause := [];
      var timeDiff := now - latest;
      if timeDiff < deltaT {
        pause := [deltaT - timeDiff];
        latest := woke;
      }
    }

    /** The part of `translate` after a cache miss: throttle, sign, send, cache the reply. */
    method Fetch(key: string, payload: map<string, string>, text: string, src: string, dst: string, domain: string,
                 kwargs: map<string, string>, sha256: string -> string,
                 salt: string, now: int, woke: int, stamp: nat, reply: Reply)
      returns (result: Result<string, TranslateFault>, sent: Option<map<string, string>>, sleeps: seq<int>)
      requires Valid() && "q" in payload
      modifies this
      ensures Valid()
      ensures var (pause, clock) := Throttle(old(latest), deltaT, now, woke);
        && latest == clock
        && sent == WithAuth(payload, sha256, apiKey, apiSecret, salt, NatToString(stamp))
        && (Translated(reply) ==>
              && result == Success(reply.translation.value) && sleeps == pause
              && cache == old(cache)[key := ReplyItem(text, reply.translation.value, src, dst, domain, kwargs)["id" := key]]
              && journal == old(journal) + [ReplyItem(text, reply.translation.value, src, dst, domain, kwargs)["id" := key]])
        && (!Translated(reply) ==>
              && result == Failure(ReplyFault(reply)) && cache == old(cache) && journal == old(journal)
              && sleeps == pause + RetrySleep(reply, deltaT))
    {
      sleeps := Wait(now, woke);
      var params := new Params(payload);
      var signed := AddAuthParams(apiKey, apiSecret, params, sha256, salt, NatToString(stamp));
      sent := Some(params.entries);
      match reply {
        case Unsent =>
          result := Failure(PostFailed);
        case Unparsable =>
          result := Failure(NotJson);
        case Parsed(None) =>
          if deltaT > 0 {
            sleeps := sleeps + [5 * deltaT];
          }
          result := Failure(NoTranslation);
        case Parsed(Some(translation)) =>
          var item := ReplyItem(text, translation, src, dst, domain, kwargs);
          CacheTranslate(key, item);
          result := Success(translation);
      }
    }

    /**
     * `translate`. `md5` and `sha256` stand for the two hashes, `salt` for
     * the `uuid1` value, `now`, `woke` and `stamp` for the clock read before
     * the throttle, after its sleep and in `addAuthParams`, and `reply`
     * for what the server answered. Besides the result it
     * returns the request sent (none on a cache hit) and the sleeps.
     */
    method Translate(text: string, src: string, dst: string, domain: string, kwargs: map<string, string>,
                     md5: map<string, string> -> string, sha256: string -> string,
                     salt: string, now: int, woke: int, stamp: nat, reply: Reply)
      returns (result: Result<string, TranslateFault>, sent: Option<map<string, string>>, sleeps: seq<int>)
      requires Valid()
      modifies this
      ensures Valid()
      ensures var key := md5(Payload(text, src, dst, domain, kwargs));
        key in old(cache) ==>
          && cache == old(cache) && journal == old(journal) && latest == old(latest)
          && sent.None? && sleeps == []
          && result == (if "translation" in old(cache)[key] then Success(old(cache)[key]["translation"]) else Failure(CachedWithout(key)))
      ensures var key := md5(Payload(text, src, dst, domain, kwargs));
        var (pause, clock) := Throttle(old(latest), deltaT, now, woke);
        key !in old(cache) ==>
          && latest == clock
          && sent == WithAuth(Payload(text, src, dst, domain, kwargs), sha256, apiKey, apiSecret, salt, NatToString(stamp))
          && (Translated(reply) ==>
                && result == Success(reply.translation.value) && sleeps == pause
                && cache == old(cache)[key := ReplyItem(text, reply.translation.value, src, dst, domain, kwargs)["id" := key]]
                && journal == old(journal) + [ReplyItem(text, reply.translation.value, src, dst, domain, kwargs)["id" := key]])
          && (!Translated(reply) ==>
                && result == Failure(ReplyFault(reply)) && cache == old(cache) && journal == old(journal)
                && sleeps == pause + RetrySleep(reply, deltaT))
      ensures old(cache).Keys <= cache.Keys
      ensures var key := md5(Payload(text, src, dst, domain, kwargs));
        result.Success? && "translation" !in kwargs ==>
          key in cache && "translation" in cache[key] && cache[key]["translation"] == result.value
    {
      var payload := Payload(text, src, dst, domain, kwargs);
      var key := md5(payload);
      if key in cache {
        if "translation" in cache[key] {
          return Success(cache[key]["translation"]), None, [];
        }
        return Failure(CachedWithout(key)), None, [];
      }
      result, sent, sleeps := Fetch(key, payload, text, src, dst, domain, kwargs, sha256, salt, now, woke, stamp, reply);
    }
  }

  /** Every request `translate` sends carries a query, so `addAuthParams` never raises there. */
  lemma PayloadSigned(text: string, src: string, dst: string, domain: string, kwargs: map<string, string>,
                      sha256: string -> string, appKey: string, appSecret: string, salt: string, curtime: string)
    ensures WithAuth(Payload(text, src, dst, domain, kwargs), sha256, appKey, appSecret, salt, curtime).Some?
  {
    assert "q" in Payload(text, src, dst, domain, kwargs);
  }
}
