/** The parts of the application settings the core reads: limits, the model name, guild IDs. */
module Settings {
  import opened Wrappers
  import opened Text
  import opened Cache

  /** Rate-limit defaults for ordinary and trusted users. */
  const RateLimitDefaultPerMin: nat := 3
  const RateLimitDefaultPerDay: nat := 20
  const RateLimitTrustedPerMin: nat := 6
  const RateLimitTrustedPerDay: nat := 100

  /**
   * Under the default limits, four requests in one minute from a user with no earlier
   * requests admit the first three and reject the fourth, which still counts against the minute.
   */
  lemma DefaultLimitsAdmitThreePerMinute(minuteKey: string, dayKey: string)
    requires minuteKey != dayKey
    ensures RateRun(map[], minuteKey, dayKey, RateLimitDefaultPerMin, RateLimitDefaultPerDay, 3).0 == 3
    ensures var c := RateRun(map[], minuteKey, dayKey, RateLimitDefaultPerMin, RateLimitDefaultPerDay, 3).1;
      !RateStep(c, minuteKey, dayKey, RateLimitDefaultPerMin, RateLimitDefaultPerDay).allowed
      && Count(RateStep(c, minuteKey, dayKey, RateLimitDefaultPerMin, RateLimitDefaultPerDay).counters, minuteKey) == 4
  {
    var c0: map<string, int> := map[];
    var c1 := c0[minuteKey := 1][dayKey := 1];
    var c2 := c1[minuteKey := 2][dayKey := 2];
    var c3 := c2[minuteKey := 3][dayKey := 3];
    assert RateStep(c0, minuteKey, dayKey, 3, 20) == RateOutcome(true, "", c1);
    assert RateStep(c1, minuteKey, dayKey, 3, 20) == RateOutcome(true, "", c2);
    assert RateStep(c2, minuteKey, dayKey, 3, 20) == RateOutcome(true, "", c3);
    assert RateRun(c0, minuteKey, dayKey, 3, 20, 0) == (0, c0);
    assert RateRun(c0, minuteKey, dayKey, 3, 20, 1) == (1, c1);
    assert RateRun(c0, minuteKey, dayKey, 3, 20, 2) == (2, c2);
    assert RateRun(c0, minuteKey, dayKey, 3, 20, 3) == (3, c3);
  }

  /** The model used for all three summarization stages unless configured otherwise. */
  const OpenAiModel: string := "gpt-4o-mini"

  /** Every piece stripped, blank pieces dropped, the rest parsed with `int()` in order. */
  function ParsePieces(pieces: seq<string>): (r: Result<seq<int>>)
    ensures r.Ok? ==> |r.value| <= |pieces|
    ensures r.Raised? ==> r.error == "ValueError"
  {
    if pieces == [] then Ok([])
    else
      var p := Strip(pieces[0]);
      var rest := ParsePieces(pieces[1..]);
      if p == [] then rest
      else match PyInt(p)
        case None => Raised("ValueError")
        case Some(v) => if rest.Raised? then rest else Ok([v] + rest.value)
  }

  /** The `guild_ids` property: an empty setting means no guilds, otherwise the comma-separated IDs. */
  function GuildIds(commandGuildIds: string): (r: Result<seq<int>>)
    ensures commandGuildIds == "" ==> r == Ok([])
    ensures r.Ok? ==> |r.value| <= |SplitOn(commandGuildIds, ',')|
  {
    if commandGuildIds == "" then Ok([]) else ParsePieces(SplitOn(commandGuildIds, ','))
  }

  /** A non-blank piece `int()` rejects. */
  predicate BadPiece(p: string) {
    Strip(p) != [] && PyInt(Strip(p)) == None
  }

  /** One step of the comprehension: it raises at the first piece or later. */
  lemma ParseStep(pieces: seq<string>)
    requires pieces != []
    ensures ParsePieces(pieces).Raised? <==> BadPiece(pieces[0]) || ParsePieces(pieces[1..]).Raised?
  {
  }

  /** Parsing raises exactly when some non-blank piece is not an integer. */
  lemma {:induction false} ParseRaisesIffBadPiece(pieces: seq<string>)
    ensures ParsePieces(pieces).Raised? <==> exists k :: 0 <= k < |pieces| && BadPiece(pieces[k])
    decreases |pieces|
  {
    if pieces != [] {
      var rest := pieces[1..];
      ParseStep(pieces);
      ParseRaisesIffBadPiece(rest);
      if exists k :: 0 <= k < |rest| && BadPiece(rest[k]) {
        var k :| 0 <= k < |rest| && BadPiece(rest[k]);
        assert pieces[k + 1] == rest[k];
      }
      if exists k :: 0 <= k < |pieces| && BadPiece(pieces[k]) {
        var k :| 0 <= k < |pieces| && BadPiece(pieces[k]);
        if k > 0 {
          assert rest[k - 1] == pieces[k];
        }
      }
    }
  }

  /** `x` is `int()` of some non-blank piece. */
  predicate FromSomePiece(x: int, pieces: seq<string>) {
    exists k :: 0 <= k < |pieces| && Strip(pieces[k]) != [] && PyInt(Strip(pieces[k])) == Some(x)
  }

  /** Each of `ids` is `int()` of some non-blank piece. */
  predicate ComeFrom(ids: seq<int>, pieces: seq<string>) {
    forall i :: 0 <= i < |ids| ==> FromSomePiece(ids[i], pieces)
  }

  /** Every parsed ID is the value of some non-blank piece; blank pieces contribute nothing. */
  lemma {:induction false} ParsedIdsComeFromPieces(pieces: seq<string>)
    requires ParsePieces(pieces).Ok?
    ensures ComeFrom(ParsePieces(pieces).value, pieces)
    decreases |pieces|
  {
    if pieces != [] {
      ParseStep(pieces);
      ParsedIdsComeFromPieces(pieces[1..]);
      if Strip(pieces[0]) == [] {
        ParseBlank(pieces);
        ComeFromLonger(ParsePieces(pieces[1..]).value, pieces);
      } else {
        var v := PyInt(Strip(pieces[0])).value;
        ParseCons(pieces, v);
        ComeFromCons(v, ParsePieces(pieces[1..]).value, pieces);
      }
    }
  }

  /** A value of a later piece is a value of some piece. */
  lemma FromLongerPieces(x: int, pieces: seq<string>)
    requires pieces != [] && FromSomePiece(x, pieces[1..])
    ensures FromSomePiece(x, pieces)
  {
    var rest := pieces[1..];
    var k :| 0 <= k < |rest| && Strip(rest[k]) != [] && PyInt(Strip(rest[k])) == Some(x);
    PieceWitness(pieces, k + 1, rest[k], x);
  }

  lemma PieceWitness(pieces: seq<string>, j: nat, p: string, x: int)
    requires j < |pieces| && pieces[j] == p && Strip(p) != [] && PyInt(Strip(p)) == Some(x)
    ensures FromSomePiece(x, pieces)
  {
  }

  lemma ComeFromLonger(ids: seq<int>, pieces: seq<string>)
    requires pieces != [] && ComeFrom(ids, pieces[1..])
    ensures ComeFrom(ids, pieces)
  {
    forall i | 0 <= i < |ids| ensures FromSomePiece(ids[i], pieces) {
      FromLongerPieces(ids[i], pieces);
    }
  }

  lemma ComeFromCons(v: int, ids: seq<int>, pieces: seq<string>)
    requires pieces != [] && Strip(pieces[0]) != [] && PyInt(Strip(pieces[0])) == Some(v)
    requires ComeFrom(ids, pieces[1..])
    ensures ComeFrom([v] + ids, pieces)
  {
    ComeFromLonger(ids, pieces);
    PieceWitness(pieces, 0, pieces[0], v);
    AllCons(v, ids, x => FromSomePiece(x, pieces));
  }

  /** A property of `v` and of every element of `ids` holds of every element of `[v] + ids`. */
  lemma AllCons<T>(v: T, ids: seq<T>, P: T -> bool)
    requires P(v) && forall i :: 0 <= i < |ids| ==> P(ids[i])
    ensures forall i :: 0 <= i < |[v] + ids| ==> P(([v] + ids)[i])
  {
    forall i | 0 <= i < |[v] + ids| ensures P(([v] + ids)[i]) {
      if i > 0 { assert ([v] + ids)[i] == ids[i - 1]; }
    }
  }

  /** A blank first piece is skipped. */
  lemma ParseBlank(pieces: seq<string>)
    requires pieces != [] && Strip(pieces[0]) == []
    ensures ParsePieces(pieces) == ParsePieces(pieces[1..])
  {
  }

  /** `str(n)` is made of digits and a minus sign only, so it holds no comma and no whitespace. */
  lemma IntToStringChars(n: int)
    ensures forall i :: 0 <= i < |IntToString(n)| ==> IsDigit(IntToString(n)[i]) || IntToString(n)[i] == '-'
  {
    var d := NatToString(if n < 0 then -n else n);
    if n < 0 {
      assert IntToString(n) == "-" + d;
      assert forall i :: 1 <= i < |IntToString(n)| ==> IntToString(n)[i] == d[i - 1];
    }
  }

  /** The decimal spellings of `ids`. */
  function Spellings(ids: seq<int>): (r: seq<string>)
    ensures |r| == |ids|
    ensures forall i :: 0 <= i < |ids| ==> r[i] == IntToString(ids[i])
  {
    seq(|ids|, i requires 0 <= i < |ids| => IntToString(ids[i]))
  }

  /** A first piece that parses puts its value in front of the rest's IDs. */
  lemma ParseCons(pieces: seq<string>, v: int)
    requires pieces != [] && Strip(pieces[0]) != [] && PyInt(Strip(pieces[0])) == Some(v)
    requires ParsePieces(pieces[1..]).Ok?
    ensures ParsePieces(pieces) == Ok([v] + ParsePieces(pieces[1..]).value)
  {
  }

  /** Parsing the decimal spellings of IDs gives the IDs back, in order. */
  lemma {:induction false} ParseSpellings(ids: seq<int>)
    ensures ParsePieces(Spellings(ids)) == Ok(ids)
    decreases |ids|
  {
    if ids != [] {
      var pieces := Spellings(ids);
      var p := pieces[0];
      assert p == IntToString(ids[0]);
      IntToStringChars(ids[0]);
      NoSpaceStrip(p);
      IntRoundTrip(ids[0]);
      assert pieces[1..] == Spellings(ids[1..]);
      ParseSpellings(ids[1..]);
      ParseCons(pieces, ids[0]);
      assert ids == [ids[0]] + ids[1..];
    }
  }

  /** Writing IDs comma-separated and reading the setting back gives the same IDs. */
  lemma GuildIdsRoundTrip(ids: seq<int>)
    ensures GuildIds(Join(Spellings(ids), ",")) == Ok(ids)
  {
    if ids == [] {
      assert Spellings(ids) == [];
      return;
    }
    var parts := Spellings(ids);
    forall k | 0 <= k < |parts|
      ensures ',' !in parts[k]
    {
      IntToStringChars(ids[k]);
    }
    SplitJoin(parts, ',');
    assert |parts[0]| >= 1;
    JoinNonEmpty(parts, ",");
    ParseSpellings(ids);
  }

  /** Joining a non-empty first part gives a non-empty string. */
  lemma JoinNonEmpty(parts: seq<string>, sep: string)
    requires parts != [] && parts[0] != []
    ensures Join(parts, sep) != []
  {
    if |parts| > 1 {
      assert Join(parts, sep) == parts[0] + sep + Join(parts[1..], sep);
    }
  }
}
