/** Properties that relate several calls on the card collection. */
module CardProperties {
  import opened Outcomes
  import opened Verdicts
  import opened CardStore
  import Decimal

  // ---------------------------------------------------------------------------------------
  // Storage key

  lemma KeyPartsDiffer(id1: string, d1: string, id2: string, d2: string)
    requires forall i :: 0 <= i < |d1| ==> Decimal.IsNumeral(d1[i])
    requires forall i :: 0 <= i < |d2| ==> Decimal.IsNumeral(d2[i])
    requires |d1| < |d2|
    ensures id1 + "_v" + d1 != id2 + "_v" + d2
  {
    var a1, a2 := id1 + "_v" + d1, id2 + "_v" + d2;
    if |a1| == |a2| {
      var p := |id1|;
      assert a1[p] == '_';
      if p == |id2| + 1 {
        assert a2[p] == 'v';
      } else {
        assert a2[p] == d2[p - |id2| - 2];
      }
    }
  }

  /** Distinct `(id, ver)` pairs never share an object name: everything after the last "_v"
      is the rendered version, which holds no '_'. */
  lemma StorageKeyInjective(id1: string, ver1: int, id2: string, ver2: int)
    requires StorageKey(id1, ver1) == StorageKey(id2, ver2)
    ensures id1 == id2 && ver1 == ver2
  {
    var d1, d2 := Decimal.IntToString(ver1), Decimal.IntToString(ver2);
    var k := StorageKey(id1, ver1);
    assert k == "cards/" + (id1 + "_v" + d1) + ".png";
    assert k == "cards/" + (id2 + "_v" + d2) + ".png";
    var a1, a2 := id1 + "_v" + d1, id2 + "_v" + d2;
    assert a1 == k[6..|k| - 4] == a2;
    if |d1| < |d2| {
      KeyPartsDiffer(id1, d1, id2, d2);
    } else if |d2| < |d1| {
      KeyPartsDiffer(id2, d2, id1, d1);
    } else {
      assert id1 == a1[..|id1|] == a2[..|id2|] == id2;
      assert d1 == a1[|id1| + 2..] == a2[|id2| + 2..] == d2;
      Decimal.IntToStringInjective(ver1, ver2);
    }
  }

  /** The key for user "u1", version 1. */
  lemma StorageKeyExample()
    ensures StorageKey("u1", 1) == "cards/u1_v1.png"
  {
  }

  // ---------------------------------------------------------------------------------------
  // /save_profile

  /** The reply and the card written depend on the display fields only through the card
      itself: requests that agree on `id` and `ver` upload under the same key, so with the
      same stage outcomes they get the same image address, whatever their nickname, the
      time, or the ignored `hey`. */
  lemma SaveKeyIgnoresDisplayFields(
    cards: seq<Card>, req1: SaveRequest, req2: SaveRequest,
    verdict: Result<Verdict, Fault>, image: Result<Bytes, Fault>,
    upload: (string, Bytes) -> Result<string, Fault>, added: Result<string, Fault>,
    now1: Timestamp, now2: Timestamp)
    requires req1.id == req2.id && req1.ver == req2.ver
    ensures SaveProfile(cards, req1, verdict, image, upload, added, now1).0
         == SaveProfile(cards, req2, verdict, image, upload, added, now2).0
  {
  }

  /** Without a usable API key the verdict stage raises first, so the whole save fails with
      that message and the collection is left as it was, whatever the later stages would do. */
  lemma MissingKeyWritesNothing(
    cards: seq<Card>, req: SaveRequest, apiKey: Option<string>, reply: Result<string, Fault>,
    image: Result<Bytes, Fault>, upload: (string, Bytes) -> Result<string, Fault>,
    added: Result<string, Fault>, now: Timestamp)
    requires apiKey == None || apiKey == Some("")
    ensures SaveProfile(cards, req, Classify(apiKey, reply), image, upload, added, now)
         == (HttpError(500, "GEMINI_API_KEY is not set"), cards)
  {
  }

  /** A save that fails at any stage is invisible to every later lookup. */
  lemma FailedSaveInvisible(
    cards: seq<Card>, req: SaveRequest, verdict: Result<Verdict, Fault>, image: Result<Bytes, Fault>,
    upload: (string, Bytes) -> Result<string, Fault>, added: Result<string, Fault>, now: Timestamp,
    id: string, ver: int)
    requires SaveProfile(cards, req, verdict, image, upload, added, now).0.HttpError?
    ensures var after := SaveProfile(cards, req, verdict, image, upload, added, now).1;
      GetUserProfile(after, id, ver) == GetUserProfile(cards, id, ver)
  {
  }

  /** After a successful save of a version nobody stored before, the point lookup returns
      the new card with the request's fields and the stage results. */
  lemma SaveThenGetFresh(
    cards: seq<Card>, req: SaveRequest, verdict: Result<Verdict, Fault>, image: Result<Bytes, Fault>,
    upload: (string, Bytes) -> Result<string, Fault>, added: Result<string, Fault>, now: Timestamp)
    requires GetUserProfile(cards, req.id, req.ver).HttpError?
    requires SaveProfile(cards, req, verdict, image, upload, added, now).0.Ok?
    ensures var (reply, after) := SaveProfile(cards, req, verdict, image, upload, added, now);
      GetUserProfile(after, req.id, req.ver) == Ok(ProfileView(
        req.nickname, req.birthday, req.birthplace, req.trivia,
        reply.body.isTrue, reply.body.imageUrl, req.id, req.ver))
  {
    var (reply, after) := SaveProfile(cards, req, verdict, image, upload, added, now);
    assert Matches(after[|cards|], req.id, req.ver);
    var k :| 0 <= k < |after| && Matches(after[k], req.id, req.ver)
      && (forall j :: 0 <= j < k ==> !Matches(after[j], req.id, req.ver))
      && GetUserProfile(after, req.id, req.ver).body == View(after[k]);
  }

  /** Saving the same version again appends a duplicate, but the point lookup keeps
      returning the card that comes first in the sequence. */
  lemma ResaveKeepsFirst(
    cards: seq<Card>, req: SaveRequest, verdict: Result<Verdict, Fault>, image: Result<Bytes, Fault>,
    upload: (string, Bytes) -> Result<string, Fault>, added: Result<string, Fault>, now: Timestamp)
    requires GetUserProfile(cards, req.id, req.ver).Ok?
    ensures var after := SaveProfile(cards, req, verdict, image, upload, added, now).1;
      GetUserProfile(after, req.id, req.ver) == GetUserProfile(cards, req.id, req.ver)
  {
    var after := SaveProfile(cards, req, verdict, image, upload, added, now).1;
    FirstMatchExtend(cards, after, req.id, req.ver);
  }

  // ---------------------------------------------------------------------------------------
  // Batch lookup

  /** Sequence concatenation is associative. */
  lemma AppendAssoc<T>(x: seq<T>, y: seq<T>, z: seq<T>)
    ensures x + y + z == x + (y + z)
  {
  }

  /** Gathering over two runs of targets is the concatenation of the two results. */
  lemma {:induction false} GatherAppend(cards: seq<Card>, a: seq<(string, int)>, b: seq<(string, int)>)
    ensures Gather(cards, a + b) == Gather(cards, a) + Gather(cards, b)
    decreases |b|
  {
    if |b| == 0 {
      assert a + b == a;
    } else {
      var b', t := b[..|b| - 1], b[|b| - 1];
      assert b == b' + [t];
      AppendAssoc(a, b', [t]);
      GatherSnoc(cards, a + b', t);
      GatherSnoc(cards, b', t);
      GatherAppend(cards, a, b');
      AppendAssoc(Gather(cards, a), Gather(cards, b'), AllMatches(cards, t.0, t.1));
    }
  }

  /** A card is in the batch result exactly when it is stored and matches some target. */
  lemma {:induction false} GatherMembership(cards: seq<Card>, targets: seq<(string, int)>, c: Card)
    ensures c in Gather(cards, targets) <==>
      c in cards && exists t :: t in targets && Matches(c, t.0, t.1)
    decreases |targets|
  {
    if |targets| > 0 {
      var init, t := targets[..|targets| - 1], targets[|targets| - 1];
      GatherMembership(cards, init, c);
      AllMatchesMembership(cards, t.0, t.1, c);
      assert targets == init + [t];
      if c in cards && exists u :: u in targets && Matches(c, u.0, u.1) {
        var u :| u in targets && Matches(c, u.0, u.1);
        if u != t {
          assert u in init;
        }
      }
    }
  }

  lemma NoMatchesNothingGathered(cards: seq<Card>, id: string, ver: int)
    requires forall j :: 0 <= j < |cards| ==> !Matches(cards[j], id, ver)
    ensures AllMatches(cards, id, ver) == []
  {
    var m := AllMatches(cards, id, ver);
    if m != [] {
      AllMatchesMembership(cards, id, ver, m[0]);
    }
  }

  /** A target that matches no card contributes nothing: dropping it leaves the result
      unchanged, so the result may be shorter than the target list. */
  lemma MissingTargetContributesNothing(
    cards: seq<Card>, a: seq<(string, int)>, t: (string, int), b: seq<(string, int)>)
    requires forall j :: 0 <= j < |cards| ==> !Matches(cards[j], t.0, t.1)
    ensures Gather(cards, a + [t] + b) == Gather(cards, a + b)
  {
    NoMatchesNothingGathered(cards, t.0, t.1);
    assert Gather(cards, [t]) == Gather(cards, []) + AllMatches(cards, t.0, t.1);
    GatherAppend(cards, a, [t]);
    GatherAppend(cards, a + [t], b);
    GatherAppend(cards, a, b);
  }

  /** The method's result is the reference one, so it inherits the membership law. */
  method BatchLookupMembership(cards: seq<Card>, targets: seq<(string, int)>, c: Card)
    returns (found: bool)
    ensures found <==> c in cards && exists t :: t in targets && Matches(c, t.0, t.1)
  {
    var results := GetOtherUserProfiles(cards, targets);
    GatherMembership(cards, targets, c);
    found := c in results;
  }

  /** Two targets where only the first exists: the result is that target's cards alone. */
  lemma BatchWithOneMissingTarget(cards: seq<Card>, a: (string, int), b: (string, int))
    requires forall j :: 0 <= j < |cards| ==> !Matches(cards[j], b.0, b.1)
    ensures Gather(cards, [a, b]) == AllMatches(cards, a.0, a.1)
  {
    NoMatchesNothingGathered(cards, b.0, b.1);
    assert [a, b][..1] == [a];
    assert [a][..0] == [];
    assert Gather(cards, [a]) == Gather(cards, []) + AllMatches(cards, a.0, a.1);
  }

  // ---------------------------------------------------------------------------------------
  // /heyplus

  /** `/heyplus` leaves every stored card's identity in place, so the first match of any
      query is where it was. */
  lemma HeyPlusKeepsFirstMatch(
    cards: seq<Card>, id: string, ver: int, pushedhey: int, now: Timestamp, qid: string, qver: int)
    ensures var after := HeyPlus(cards, id, ver, pushedhey, now).1;
      FirstMatch(after, qid, qver) == FirstMatch(cards, qid, qver)
  {
    var after := HeyPlus(cards, id, ver, pushedhey, now).1;
    assert forall j :: 0 <= j < |cards| ==> (Matches(after[j], qid, qver) <==> Matches(cards[j], qid, qver));
    var f, f' := FirstMatch(cards, qid, qver), FirstMatch(after, qid, qver);
    if f.Some? && f'.Some? {
      assert f.value == f'.value;
    }
  }

  /** `/heyplus` is invisible to the point lookup, which does not report the counter. */
  lemma HeyPlusInvisibleToLookup(
    cards: seq<Card>, id: string, ver: int, pushedhey: int, now: Timestamp, qid: string, qver: int)
    ensures var after := HeyPlus(cards, id, ver, pushedhey, now).1;
      GetUserProfile(after, qid, qver) == GetUserProfile(cards, qid, qver)
  {
    HeyPlusKeepsFirstMatch(cards, id, ver, pushedhey, now, qid, qver);
  }

  /** The counter of the first card matching `(id, ver)`, 0 when absent or unset. */
  function CounterOf(cards: seq<Card>, id: string, ver: int): int {
    match FirstMatch(cards, id, ver)
    case None => 0
    case Some(k) => cards[k].hey.GetOr(0)
  }

  /** Two `/heyplus` calls in sequence add both amounts (calls that do not overlap in time;
      concurrent calls may lose one update, see README). */
  lemma HeyPlusTwice(cards: seq<Card>, id: string, ver: int, d1: int, d2: int, t1: Timestamp, t2: Timestamp)
    requires exists j :: 0 <= j < |cards| && Matches(cards[j], id, ver)
    ensures var (r1, mid) := HeyPlus(cards, id, ver, d1, t1);
      var (r2, after) := HeyPlus(mid, id, ver, d2, t2);
      && r2 == Ok(HeyReply(id, ver, CounterOf(cards, id, ver) + d1 + d2))
      && CounterOf(after, id, ver) == CounterOf(cards, id, ver) + d1 + d2
  {
    HeyPlusAt(cards, id, ver, d1, t1);
    var mid := HeyPlus(cards, id, ver, d1, t1).1;
    HeyPlusKeepsFirstMatch(cards, id, ver, d1, t1, id, ver);
    HeyPlusAt(mid, id, ver, d2, t2);
    HeyPlusKeepsFirstMatch(mid, id, ver, d2, t2, id, ver);
  }

  /** `n` sequential `/heyplus` calls of amount `delta` at the given instants. */
  function Repeat(cards: seq<Card>, id: string, ver: int, delta: int, times: seq<Timestamp>): seq<Card>
    decreases |times|
  {
    if |times| == 0 then cards
    else HeyPlus(Repeat(cards, id, ver, delta, times[..|times| - 1]), id, ver, delta, times[|times| - 1]).1
  }

  /** One call per instant, each adding `delta`, leaves the counter `delta` times the number
      of calls higher: fifty sequential calls of 1 on a fresh card count fifty. */
  lemma {:induction false} RepeatAdds(cards: seq<Card>, id: string, ver: int, delta: int, times: seq<Timestamp>)
    requires exists j :: 0 <= j < |cards| && Matches(cards[j], id, ver)
    ensures |Repeat(cards, id, ver, delta, times)| == |cards|
    ensures FirstMatch(Repeat(cards, id, ver, delta, times), id, ver) == FirstMatch(cards, id, ver)
    ensures CounterOf(Repeat(cards, id, ver, delta, times), id, ver)
         == CounterOf(cards, id, ver) + |times| * delta
    decreases |times|
  {
    if |times| > 0 {
      var n, t := |times|, times[|times| - 1];
      var prev := Repeat(cards, id, ver, delta, times[..n - 1]);
      RepeatAdds(cards, id, ver, delta, times[..n - 1]);
      assert Repeat(cards, id, ver, delta, times) == HeyPlus(prev, id, ver, delta, t).1;
      HeyPlusAt(prev, id, ver, delta, t);
      HeyPlusKeepsFirstMatch(prev, id, ver, delta, t, id, ver);
      assert (n - 1) * delta + delta == n * delta;
    }
  }
}
