/**
 * The Redis cache (`RedisCache`): namespaced keys, the JSON get/set pairs and the two-counter
 * rate limit. The store is a map from key to decoded JSON object; INCR counters are a second map.
 */
module Cache {
  import opened Wrappers
  import opened JsonValues
  import opened Text

  const Namespace: string := "dra"

  /** Time-to-live, in seconds, that each write asks for. */
  const TtlMetadata: int := 7 * 86400
  const TtlSummary: int := 30 * 86400
  const TtlPdf: int := 30 * 86400
  const TtlCitations: int := 7 * 86400
  const TtlRateMinute: int := 60
  const TtlRateDay: int := 86400

  /** `_key(*parts)`: the namespace, a colon, the parts joined with colons. */
  function Key(parts: seq<string>): (k: string)
    ensures Namespace + ":" <= k
  {
    Namespace + ":" + Join(parts, ":")
  }

  predicate ColonFree(parts: seq<string>) {
    forall i :: 0 <= i < |parts| ==> ':' !in parts[i]
  }

  /** A key splits at its colons into the namespace followed by its parts. */
  lemma KeyParts(parts: seq<string>)
    requires |parts| >= 1 && ColonFree(parts)
    ensures SplitOn(Key(parts), ':') == [Namespace] + parts
  {
    var all := [Namespace] + parts;
    assert all[1..] == parts;
    assert Join(all, ":") == Key(parts);
    SplitJoin(all, ':');
  }

  /** Different colon-free part lists never share a key. */
  lemma KeyInjective(a: seq<string>, b: seq<string>)
    requires |a| >= 1 && ColonFree(a) && |b| >= 1 && ColonFree(b)
    requires Key(a) == Key(b)
    ensures a == b
  {
    KeyParts(a);
    KeyParts(b);
    assert a == ([Namespace] + a)[1..];
    assert b == ([Namespace] + b)[1..];
  }

  function MetaKey(arxivId: string): string { Key(["paper", arxivId, "meta"]) }

  /** The summary key; the source's default version is "v1". */
  function SummaryKey(arxivId: string, model: string, version: string := "v1"): string {
    Key(["paper", arxivId, "summary", model, version])
  }

  function PdfKey(arxivId: string, model: string, version: string := "v1"): string {
    Key(["pdf", arxivId, model, version])
  }

  function CitationsKey(month: string): string { Key(["citations", month]) }

  /** `str(now // 60)`; on a positive divisor Dafny's division is Python's floor division. */
  function MinuteKey(userId: string, nowSeconds: int): string {
    Key(["rate", "discord", userId, "min", IntToString(nowSeconds / 60)])
  }

  function DayKey(userId: string, today: string): string {
    Key(["rate", "discord", userId, "day", today])
  }

  /** The four key families never collide when their parts are colon-free. */
  lemma KeyFamiliesDisjoint(id1: string, id2: string, model1: string, model2: string,
                            v1: string, v2: string, month: string)
    requires ColonFree([id1, id2, model1, model2, v1, v2, month])
    ensures MetaKey(id1) != SummaryKey(id2, model1, v1)
    ensures MetaKey(id1) != PdfKey(id2, model1, v1)
    ensures MetaKey(id1) != CitationsKey(month)
    ensures SummaryKey(id1, model1, v1) != PdfKey(id2, model2, v2)
    ensures SummaryKey(id1, model1, v1) != CitationsKey(month)
    ensures PdfKey(id1, model1, v1) != CitationsKey(month)
  {
    var cf := [id1, id2, model1, model2, v1, v2, month];
    assert ':' !in id1 && ':' !in id2 && ':' !in model1 by { assert cf[0] == id1 && cf[1] == id2 && cf[2] == model1; }
    assert ':' !in model2 && ':' !in v1 && ':' !in v2 && ':' !in month by {
      assert cf[3] == model2 && cf[4] == v1 && cf[5] == v2 && cf[6] == month;
    }
    var meta := ["paper", id1, "meta"];
    var summ1 := ["paper", id1, "summary", model1, v1];
    var summ2 := ["paper", id2, "summary", model1, v1];
    var pdf1 := ["pdf", id1, model1, v1];
    var pdf2 := ["pdf", id2, model1, v1];
    var pdf3 := ["pdf", id2, model2, v2];
    var cit := ["citations", month];
    KeyDistinct(meta, summ2);
    KeyDistinct(meta, pdf2);
    KeyDistinct(meta, cit);
    KeyDistinct(summ1, pdf3);
    KeyDistinct(summ1, cit);
    KeyDistinct(pdf1, cit);
  }

  /** Part lists that differ give different keys. */
  lemma KeyDistinct(a: seq<string>, b: seq<string>)
    requires |a| >= 1 && ColonFree(a) && |b| >= 1 && ColonFree(b)
    requires |a| != |b| || a[0] != b[0]
    ensures Key(a) != Key(b)
  {
    if Key(a) == Key(b) {
      KeyInjective(a, b);
    }
  }

  /** A user's minute and day counters are always different keys. */
  lemma MinuteAndDayKeysDiffer(userId: string, nowSeconds: int, today: string)
    ensures MinuteKey(userId, nowSeconds) != DayKey(userId, today)
  {
    var pre := Namespace + ":" + "rate" + ":" + "discord" + ":" + userId + ":";
    var m := MinuteKey(userId, nowSeconds);
    var d := DayKey(userId, today);
    var x := IntToString(nowSeconds / 60);
    assert m == pre + ("min" + ":" + x) by { JoinFive("rate", "discord", userId, "min", x); }
    assert d == pre + ("day" + ":" + today) by { JoinFive("rate", "discord", userId, "day", today); }
    assert m[|pre|] == 'm' && d[|pre|] == 'd';
  }

  lemma JoinFive(a: string, b: string, c: string, d: string, e: string)
    ensures Namespace + ":" + Join([a, b, c, d, e], ":")
         == Namespace + ":" + a + ":" + b + ":" + c + ":" + (d + ":" + e)
  {
    var ps := [a, b, c, d, e];
    assert ps[1..] == [b, c, d, e] && ps[1..][1..] == [c, d, e] && ps[1..][1..][1..] == [d, e];
    assert [d, e][1..] == [e];
    assert Join([e], ":") == e;
    var j2 := Join([d, e], ":");
    assert j2 == d + ":" + e;
    var j3 := Join([c, d, e], ":");
    assert j3 == c + ":" + j2;
    var j4 := Join([b, c, d, e], ":");
    assert j4 == b + ":" + j3;
    assert Join(ps, ":") == a + ":" + j4;
  }

  /** A GET: the stored object, or `None` for a missing key. */
  function Lookup(store: map<string, Json>, key: string): (r: Option<Json>)
    ensures r.Some? <==> key in store
    ensures r.Some? ==> r.value == store[key]
  {
    if key in store then Some(store[key]) else None
  }

  /** A get after a set on the same key returns what was set, and other keys are unaffected. */
  lemma LookupAfterSet(store: map<string, Json>, key: string, v: Json, other: string)
    ensures Lookup(store[key := v], key) == Some(v)
    ensures other != key ==> Lookup(store[key := v], other) == Lookup(store, other)
  {
  }

  /** An INCR counter's value; a missing key counts as 0. */
  function Count(counters: map<string, int>, key: string): int {
    if key in counters then counters[key] else 0
  }

  datatype RateOutcome = RateOutcome(allowed: bool, reason: string, counters: map<string, int>)

  /** One `check_rate_limit` call on the counter map. */
  function RateStep(counters: map<string, int>, minuteKey: string, dayKey: string, perMin: int, perDay: int): RateOutcome {
    var m := Count(counters, minuteKey) + 1;
    var c1 := counters[minuteKey := m];
    if m > perMin then RateOutcome(false, "Rate limit: " + IntToString(perMin) + " requests per minute", c1)
    else
      var d := Count(c1, dayKey) + 1;
      var c2 := c1[dayKey := d];
      if d > perDay then RateOutcome(false, "Rate limit: " + IntToString(perDay) + " requests per day", c2)
      else RateOutcome(true, "", c2)
  }

  /**
   * What one call does: the minute counter always goes up by one; the day counter goes up by
   * one only when the minute check passes; nothing else changes; the call is allowed iff both
   * new counts are within their limits, and the reason is empty iff it is allowed.
   */
  lemma RateStepRules(counters: map<string, int>, minuteKey: string, dayKey: string, perMin: int, perDay: int)
    requires minuteKey != dayKey
    ensures var o := RateStep(counters, minuteKey, dayKey, perMin, perDay);
      var m := Count(counters, minuteKey) + 1;
      && Count(o.counters, minuteKey) == m
      && (m > perMin ==> Count(o.counters, dayKey) == Count(counters, dayKey))
      && (m <= perMin ==> Count(o.counters, dayKey) == Count(counters, dayKey) + 1)
      && (forall k :: k != minuteKey && k != dayKey ==> Count(o.counters, k) == Count(counters, k))
      && (o.allowed <==> m <= perMin && Count(counters, dayKey) + 1 <= perDay)
      && (o.reason == "" <==> o.allowed)
  {
  }

  /** `n` calls against the same pair of counters: how many were allowed, and the final counters. */
  function RateRun(counters: map<string, int>, minuteKey: string, dayKey: string, perMin: int, perDay: int, n: nat): (nat, map<string, int>)
  {
    if n == 0 then (0, counters)
    else
      var (k, c) := RateRun(counters, minuteKey, dayKey, perMin, perDay, n - 1);
      var o := RateStep(c, minuteKey, dayKey, perMin, perDay);
      (k + (if o.allowed then 1 else 0), o.counters)
  }

  function Max0(x: int): nat { if x < 0 then 0 else x }

  /**
   * Within one minute bucket and one day, `n` calls admit at most the remaining minute quota
   * and at most the remaining day quota; rejected calls still use up minute quota.
   */
  lemma {:induction false} RateBudget(counters: map<string, int>, minuteKey: string, dayKey: string, perMin: int, perDay: int, n: nat)
    requires minuteKey != dayKey
    ensures var (allowed, c) := RateRun(counters, minuteKey, dayKey, perMin, perDay, n);
      && Count(c, minuteKey) == Count(counters, minuteKey) + n
      && allowed <= n
      && allowed <= Max0(perMin - Count(counters, minuteKey))
      && allowed <= Max0(perDay - Count(counters, dayKey))
      && Count(c, dayKey) >= Count(counters, dayKey) + allowed
  {
    if n > 0 {
      RateBudget(counters, minuteKey, dayKey, perMin, perDay, n - 1);
      var (k, c) := RateRun(counters, minuteKey, dayKey, perMin, perDay, n - 1);
      RateStepRules(c, minuteKey, dayKey, perMin, perDay);
    }
  }

  class RedisCache {
    /** The JSON value stored under each key (decoded). */
    var store: map<string, Json>
    /** The time-to-live each key was last written with (expiry itself is not modelled). */
    var ttl: map<string, int>
    /** The INCR counters. */
    var counters: map<string, int>

    constructor()
      ensures store == map[] && ttl == map[] && counters == map[]
    {
      store := map[];
      ttl := map[];
      counters := map[];
    }

    method GetPaperMetadata(arxivId: string) returns (r: Option<Json>)
      ensures r == Lookup(store, MetaKey(arxivId))
    {
      var key := MetaKey(arxivId);
      if key in store {
        return Some(store[key]);
      }
      return None;
    }

    method SetPaperMetadata(arxivId: string, metadata: Json)
      modifies this
      ensures store == old(store)[MetaKey(arxivId) := metadata]
      ensures ttl == old(ttl)[MetaKey(arxivId) := TtlMetadata]
      ensures counters == old(counters)
    {
      var key := MetaKey(arxivId);
      store := store[key := metadata];
      ttl := ttl[key := TtlMetadata];
    }

    method GetSummary(arxivId: string, model: string, version: string := "v1") returns (r: Option<Json>)
      ensures r == Lookup(store, SummaryKey(arxivId, model, version))
    {
      var key := SummaryKey(arxivId, model, version);
      if key in store {
        return Some(store[key]);
      }
      return None;
    }

    method SetSummary(arxivId: string, model: string, summary: Json, version: string := "v1")
      modifies this
      ensures store == old(store)[SummaryKey(arxivId, model, version) := summary]
      ensures ttl == old(ttl)[SummaryKey(arxivId, model, version) := TtlSummary]
      ensures counters == old(counters)
    {
      var key := SummaryKey(arxivId, model, version);
      store := store[key := summary];
      ttl := ttl[key := TtlSummary];
    }

    method GetPdfInfo(arxivId: string, model: string, version: string := "v1") returns (r: Option<Json>)
      ensures r == Lookup(store, PdfKey(arxivId, model, version))
    {
      var key := PdfKey(arxivId, model, version);
      if key in store {
        return Some(store[key]);
      }
      return None;
    }

    method SetPdfInfo(arxivId: string, model: string, pdfInfo: Json, version: string := "v1")
      modifies this
      ensures store == old(store)[PdfKey(arxivId, model, version) := pdfInfo]
      ensures ttl == old(ttl)[PdfKey(arxivId, model, version) := TtlPdf]
      ensures counters == old(counters)
    {
      var key := PdfKey(arxivId, model, version);
      store := store[key := pdfInfo];
      ttl := ttl[key := TtlPdf];
    }

    method GetCitations(month: string) returns (r: Option<Json>)
      ensures r == Lookup(store, CitationsKey(month))
    {
      var key := CitationsKey(month);
      if key in store {
        return Some(store[key]);
      }
      return None;
    }

    method SetCitations(month: string, citations: Json)
      modifies this
      ensures store == old(store)[CitationsKey(month) := citations]
      ensures ttl == old(ttl)[CitationsKey(month) := TtlCitations]
      ensures counters == old(counters)
    {
      var key := CitationsKey(month);
      store := store[key := citations];
      ttl := ttl[key := TtlCitations];
    }

    /** INCR: the counter goes up by one (from 0 when missing) and its new value is returned. */
    method Incr(key: string) returns (v: int)
      modifies this
      ensures v == Count(old(counters), key) + 1
      ensures counters == old(counters)[key := v]
      ensures store == old(store) && ttl == old(ttl)
    {
      v := Count(counters, key) + 1;
      counters := counters[key := v];
    }

    /** `check_rate_limit`; the clock reading and the UTC date string are parameters. */
    method CheckRateLimit(userId: string, perMin: int, perDay: int, nowSeconds: int, today: string)
      returns (allowed: bool, reason: string)
      modifies this
      ensures var o := RateStep(old(counters), MinuteKey(userId, nowSeconds), DayKey(userId, today), perMin, perDay);
        allowed == o.allowed && reason == o.reason && counters == o.counters
      ensures var minuteTtl := old(ttl)[MinuteKey(userId, nowSeconds) := TtlRateMinute];
        ttl == if Count(old(counters), MinuteKey(userId, nowSeconds)) + 1 > perMin then minuteTtl
               else minuteTtl[DayKey(userId, today) := TtlRateDay]
      ensures store == old(store)
    {
      var minuteKey := MinuteKey(userId, nowSeconds);
      var dayKey := DayKey(userId, today);
      MinuteAndDayKeysDiffer(userId, nowSeconds, today);

      var minuteCount := Incr(minuteKey);
      ttl := ttl[minuteKey := TtlRateMinute];
      if minuteCount > perMin {
        return false, "Rate limit: " + IntToString(perMin) + " requests per minute";
      }

      var dayCount := Incr(dayKey);
      ttl := ttl[dayKey := TtlRateDay];
      if dayCount > perDay {
        return false, "Rate limit: " + IntToString(perDay) + " requests per day";
      }
      return true, "";
    }
  }
}
