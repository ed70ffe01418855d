/**
 * The section editor: `EditApi` caches fetched sections and stages edited
 * ones, and posts the staged sections on save; `EditOverlay` tracks the
 * section being edited, the prev/next buttons and the number of changes.
 *
 * The API is abstracted: a section fetch is issued by `GetSection` and its
 * response delivered later (`ReceiveSection`); the token and the replies
 * to successive edit posts are inputs of `Save`. A fetch whose response
 * never arrives leaves its request pending forever.
 */
module Edit {
  import opened Wrappers

  /** A fetched section: its id, the revision timestamp and the wikitext. */
  datatype CachedSection = CachedSection(section: nat, timestamp: string, content: string)

  /** A section edited in the overlay and waiting to be saved. */
  datatype StagedSection = StagedSection(id: nat, content: string)

  /** The first revision of the page in a section query's response. */
  datatype Revision = Revision(timestamp: string, content: string)

  /** `action=query&prop=revisions&rvprop=content|timestamp` for one section. */
  datatype SectionQuery = SectionQuery(pageId: int, section: nat)

  /** The parameters of one `action=edit` post. */
  datatype EditRequest = EditRequest(pageId: int, section: nat, text: string, token: string,
                                     baseTimestamp: string, startTimestamp: string)

  /** The reply to an edit post: an HTTP failure, or data with an optional error code. */
  datatype PostReply = HttpFailure | Reply(errorCode: Option<string>)

  /** The result of fetching the edit token. */
  datatype TokenReply = Token(token: string) | TokenFailure(reason: string)

  /** The state of a jQuery Deferred. */
  datatype Settled<T> = Pending | Resolved(value: T) | Rejected(reason: string)

  /** What a save does: how its Deferred settles and which posts it makes, in order. */
  datatype SaveRun = SaveRun(outcome: Settled<()>, posted: seq<EditRequest>)

  // ---------------------------------------------------------------------
  // The order in which `$.map` enumerates the staging object

  /** m is at most every key of s. */
  predicate AtMost(m: nat, s: set<nat>)
  {
    forall k :: k in s ==> m <= k
  }

  lemma {:induction false} MinExists(s: set<nat>)
    requires s != {}
    ensures exists m :: m in s && AtMost(m, s)
    decreases |s|
  {
    var x :| x in s;
    var others := s - {x};
    if others == {} {
      forall k | k in s
        ensures x <= k
      {
        assert k !in others;
      }
      assert x in s && AtMost(x, s);
    } else {
      MinExists(others);
      var m :| m in others && AtMost(m, others);
      var least := if x < m then x else m;
      forall k | k in s
        ensures least <= k
      {
        if k != x {
          assert k in others;
        }
      }
      assert least in s && AtMost(least, s);
    }
  }

  /** Putting a key below all others in front keeps the list ascending. */
  lemma ConsAscending(m: nat, rest: seq<nat>)
    requires forall i, j :: 0 <= i < j < |rest| ==> rest[i] < rest[j]
    requires forall k :: k in rest ==> m < k
    ensures var r := [m] + rest; forall i, j :: 0 <= i < j < |r| ==> r[i] < r[j]
  {
    var r := [m] + rest;
    forall i, j | 0 <= i < j < |r|
      ensures r[i] < r[j]
    {
      assert r[j] == rest[j - 1];
      if i > 0 {
        assert r[i] == rest[i - 1];
      } else {
        assert rest[j - 1] in rest;
      }
    }
  }

  /** The smallest key. */
  function Least(s: set<nat>): (m: nat)
    requires s != {}
    ensures m in s && AtMost(m, s)
  {
    MinExists(s);
    var m :| m in s && AtMost(m, s);
    m
  }

  /** The keys in ascending order. */
  function SortedKeys(s: set<nat>): (r: seq<nat>)
    ensures forall i, j :: 0 <= i < j < |r| ==> r[i] < r[j]
    ensures forall k :: k in s <==> k in r
    ensures |r| == |s|
    decreases |s|
  {
    if s == {} then []
    else
      var m := Least(s);
      var rest := SortedKeys(s - {m});
      ConsAscending(m, rest);
      [m] + rest
  }

  /**
   * The staged sections as `$.map` lists them: JavaScript enumerates the
   * integer keys of an object in ascending order.
   */
  function StagedInOrder(stage: map<nat, StagedSection>): (r: seq<StagedSection>)
    ensures |r| == |stage|
  {
    ValuesAt(stage, SortedKeys(stage.Keys))
  }

  /** The list holds exactly the staged sections. */
  lemma StagedInOrderValues(stage: map<nat, StagedSection>)
    ensures forall s :: s in StagedInOrder(stage) <==> s in stage.Values
  {
    var keys := SortedKeys(stage.Keys);
    ValuesInKeyOrder(stage, keys, ValuesAt(stage, keys));
  }

  /** Every listed section is cached exactly when every staged section is. */
  lemma StagedInOrderCached(stage: map<nat, StagedSection>, cache: map<nat, CachedSection>)
    ensures var r := StagedInOrder(stage);
      (forall k :: 0 <= k < |r| ==> r[k].id in cache) <==> (forall id :: id in stage ==> stage[id].id in cache)
  {
    var keys := SortedKeys(stage.Keys);
    var r := ValuesAt(stage, keys);
    assert StagedInOrder(stage) == r;
    if forall k :: 0 <= k < |r| ==> r[k].id in cache {
      forall id | id in stage
        ensures stage[id].id in cache
      {
        assert id in keys;
        var i :| 0 <= i < |keys| && keys[i] == id;
        assert r[i] == stage[id];
      }
    }
    if forall id :: id in stage ==> stage[id].id in cache {
      forall k | 0 <= k < |r|
        ensures r[k].id in cache
      {
        assert keys[k] in stage;
      }
    }
  }

  /** With every section stored under its own id, the list is in ascending id order. */
  lemma StagedInOrderAscending(stage: map<nat, StagedSection>)
    requires forall id :: id in stage ==> stage[id].id == id
    ensures var r := StagedInOrder(stage); forall i, j :: 0 <= i < j < |r| ==> r[i].id < r[j].id
  {
    var keys := SortedKeys(stage.Keys);
    var r := ValuesAt(stage, keys);
    assert StagedInOrder(stage) == r;
    forall i, j | 0 <= i < j < |r|
      ensures r[i].id < r[j].id
    {
      assert r[i].id == keys[i] && r[j].id == keys[j];
    }
  }

  /** The values stored under a list of keys, in the order of the list. */
  function ValuesAt(stage: map<nat, StagedSection>, keys: seq<nat>): (r: seq<StagedSection>)
    requires forall i :: 0 <= i < |keys| ==> keys[i] in stage
    ensures |r| == |keys| && forall i :: 0 <= i < |keys| ==> r[i] == stage[keys[i]]
  {
    if keys == [] then [] else [stage[keys[0]]] + ValuesAt(stage, keys[1..])
  }

  /** Listing the values of a map by a list of its keys. */
  lemma ValuesInKeyOrder(stage: map<nat, StagedSection>, keys: seq<nat>, r: seq<StagedSection>)
    requires forall i, j :: 0 <= i < j < |keys| ==> keys[i] < keys[j]
    requires forall k :: k in stage.Keys <==> k in keys
    requires |keys| == |stage.Keys|
    requires |r| == |keys| && forall i :: 0 <= i < |keys| ==> r[i] == stage[keys[i]]
    ensures forall s :: s in r <==> s in stage.Values
  {
    forall s | s in stage.Values
      ensures s in r
    {
      var k :| k in stage && stage[k] == s;
      var i :| 0 <= i < |keys| && keys[i] == k;
      assert r[i] == s;
    }
    forall s | s in r
      ensures s in stage.Values
    {
      var i :| 0 <= i < |r| && r[i] == s;
      assert keys[i] in stage;
    }
  }

  // ---------------------------------------------------------------------
  // save(): the posts, one section at a time from the end of the list

  /** The post for one staged section: the cached timestamp is both base and start timestamp. */
  function RequestFor(s: StagedSection, cache: map<nat, CachedSection>, pageId: int, token: string): EditRequest
    requires s.id in cache
  {
    EditRequest(pageId, s.id, s.content, token, cache[s.id].timestamp, cache[s.id].timestamp)
  }

  /** The reason a reply rejects the save with, if it does. */
  function RejectionOf(reply: PostReply): Option<string>
  {
    match reply
    case HttpFailure => Some("HTTP error")
    case Reply(code) => code
  }

  /**
   * `saveSection` and the callbacks it chains: pop the last section, post
   * it, and on a reply without error go on with the rest. A section that is
   * not cached makes the callback throw, so the save never settles; so
   * does a post whose reply has not arrived (`replies` ran out).
   */
  function PostFrom(sections: seq<StagedSection>, cache: map<nat, CachedSection>, pageId: int, token: string,
                    replies: seq<PostReply>): SaveRun
    requires sections != []
    decreases |sections|
  {
    var section := sections[|sections| - 1];
    var rest := sections[..|sections| - 1];
    if section.id !in cache then SaveRun(Pending, [])
    else
      var request := RequestFor(section, cache, pageId, token);
      if replies == [] then SaveRun(Pending, [request])
      else if RejectionOf(replies[0]).Some? then SaveRun(Rejected(RejectionOf(replies[0]).value), [request])
      else if rest == [] then SaveRun(Resolved(()), [request])
      else
        var run := PostFrom(rest, cache, pageId, token, replies[1..]);
        SaveRun(run.outcome, [request] + run.posted)
  }

  /**
   * `save()`: fetch the token (a failure rejects with its reason), then post
   * the staged sections. With nothing staged `pop` yields `undefined` and
   * the callback throws: the save never settles.
   */
  function SaveSpec(stage: map<nat, StagedSection>, cache: map<nat, CachedSection>, pageId: int,
                    token: TokenReply, replies: seq<PostReply>): SaveRun
  {
    match token
    case TokenFailure(reason) => SaveRun(Rejected(reason), [])
    case Token(t) =>
      var sections := StagedInOrder(stage);
      if sections == [] then SaveRun(Pending, []) else PostFrom(sections, cache, pageId, t, replies)
  }

  /**
   * The k-th post is for the k-th section from the end, with its cached
   * timestamp.
   */
  predicate PostedInPopOrder(sections: seq<StagedSection>, cache: map<nat, CachedSection>, pageId: int,
                             token: string, posted: seq<EditRequest>)
  {
    && |posted| <= |sections|
    && forall k :: 0 <= k < |posted| ==> PostedAt(sections, cache, pageId, token, posted, k)
  }

  /** The k-th post is for the k-th section from the end. */
  predicate PostedAt(sections: seq<StagedSection>, cache: map<nat, CachedSection>, pageId: int,
                     token: string, posted: seq<EditRequest>, k: int)
    requires 0 <= k < |posted| <= |sections|
  {
    && sections[|sections| - 1 - k].id in cache
    && posted[k] == RequestFor(sections[|sections| - 1 - k], cache, pageId, token)
  }

  lemma PopOrderCons(section: StagedSection, rest: seq<StagedSection>, cache: map<nat, CachedSection>,
                     pageId: int, token: string, posted: seq<EditRequest>)
    requires section.id in cache
    requires PostedInPopOrder(rest, cache, pageId, token, posted)
    ensures PostedInPopOrder(rest + [section], cache, pageId, token,
                             [RequestFor(section, cache, pageId, token)] + posted)
  {
    var sections := rest + [section];
    var all := [RequestFor(section, cache, pageId, token)] + posted;
    assert |sections| == |rest| + 1 && |all| == |posted| + 1;
    forall k | 0 <= k < |all|
      ensures PostedAt(sections, cache, pageId, token, all, k)
    {
      if k == 0 {
        assert sections[|sections| - 1] == section;
      } else {
        var m := k - 1;
        var i := |rest| - 1 - m;
        assert 0 <= m < |posted| && 0 <= i < |rest|;
        assert PostedAt(rest, cache, pageId, token, posted, m);
        assert |sections| - 1 - k == i && sections[i] == rest[i];
        assert all[k] == posted[m];
      }
    }
  }

  /**
   * The posts go out in pop order, and every post but the last got a reply
   * without error.
   */
  lemma {:induction false} PostFromPosts(sections: seq<StagedSection>, cache: map<nat, CachedSection>,
                                         pageId: int, token: string, replies: seq<PostReply>)
    requires sections != []
    ensures var run := PostFrom(sections, cache, pageId, token, replies);
      && PostedInPopOrder(sections, cache, pageId, token, run.posted)
      && |run.posted| <= |replies| + 1
      && (forall k :: 0 <= k < |run.posted| - 1 ==> replies[k] == Reply(None))
    decreases |sections|
  {
    var section := sections[|sections| - 1];
    var rest := sections[..|sections| - 1];
    var run := PostFrom(sections, cache, pageId, token, replies);
    if section.id in cache && replies != [] && RejectionOf(replies[0]).None? && rest != [] {
      PostFromPosts(rest, cache, pageId, token, replies[1..]);
      var sub := PostFrom(rest, cache, pageId, token, replies[1..]);
      assert run.posted == [RequestFor(section, cache, pageId, token)] + sub.posted;
      assert sections == rest + [section];
      PopOrderCons(section, rest, cache, pageId, token, sub.posted);
      forall k | 0 <= k < |run.posted| - 1
        ensures replies[k] == Reply(None)
      {
        if k > 0 {
          assert replies[k] == replies[1..][k - 1];
        }
      }
    } else if section.id in cache {
      assert run.posted == [RequestFor(section, cache, pageId, token)];
    }
  }

  /**
   * A save that settles has had a reply to each of its posts; it resolves
   * only once every section is posted; it rejects exactly when the reply to
   * its last post is an error, and then with that reply's reason.
   */
  lemma {:induction false} PostFromOutcome(sections: seq<StagedSection>, cache: map<nat, CachedSection>,
                                           pageId: int, token: string, replies: seq<PostReply>)
    requires sections != []
    ensures var run := PostFrom(sections, cache, pageId, token, replies);
      && (!run.outcome.Pending? ==> run.posted != [] && |run.posted| <= |replies|)
      && (run.outcome.Resolved? ==> |run.posted| == |sections| && replies[|sections| - 1] == Reply(None))
      && (run.outcome.Rejected? ==> RejectionOf(replies[|run.posted| - 1]) == Some(run.outcome.reason))
      && (run.outcome.Rejected? <==>
            run.posted != [] && |run.posted| <= |replies| && RejectionOf(replies[|run.posted| - 1]).Some?)
    decreases |sections|
  {
    var section := sections[|sections| - 1];
    var rest := sections[..|sections| - 1];
    if section.id in cache && replies != [] && RejectionOf(replies[0]).None? && rest != [] {
      PostFromOutcome(rest, cache, pageId, token, replies[1..]);
      var run := PostFrom(sections, cache, pageId, token, replies);
      var sub := PostFrom(rest, cache, pageId, token, replies[1..]);
      assert run.posted == [RequestFor(section, cache, pageId, token)] + sub.posted;
      if !sub.outcome.Pending? {
        assert replies[|run.posted| - 1] == replies[1..][|sub.posted| - 1];
      }
    }
  }

  /**
   * The run stops short only for a reason: every reply has been used up and
   * the last post waits for its answer, or the next section to pop is not
   * cached.
   */
  predicate StopsForReason(sections: seq<StagedSection>, cache: map<nat, CachedSection>,
                           replies: seq<PostReply>, run: SaveRun)
  {
    run.outcome.Pending? ==>
      |run.posted| == |replies| + 1
      || (|run.posted| < |sections| && sections[|sections| - 1 - |run.posted|].id !in cache)
  }

  /**
   * The chain goes on while replies succeed: a run that has not settled is
   * waiting for a reply or has reached an uncached section.
   */
  lemma {:induction false} PostFromProgress(sections: seq<StagedSection>, cache: map<nat, CachedSection>,
                                            pageId: int, token: string, replies: seq<PostReply>)
    requires sections != []
    ensures StopsForReason(sections, cache, replies, PostFrom(sections, cache, pageId, token, replies))
    decreases |sections|
  {
    var section := sections[|sections| - 1];
    var rest := sections[..|sections| - 1];
    if section.id in cache && replies != [] && RejectionOf(replies[0]).None? && rest != [] {
      PostFromProgress(rest, cache, pageId, token, replies[1..]);
      var run := PostFrom(sections, cache, pageId, token, replies);
      var sub := PostFrom(rest, cache, pageId, token, replies[1..]);
      assert run.posted == [RequestFor(section, cache, pageId, token)] + sub.posted;
      if sub.outcome.Pending? && |sub.posted| < |rest| {
        assert sections[|sections| - 1 - (1 + |sub.posted|)] == rest[|rest| - 1 - |sub.posted|];
      }
    }
  }

  /**
   * A save resolves exactly when every staged section is cached and each of
   * the posts gets a reply without error.
   */
  lemma {:induction false} PostFromResolves(sections: seq<StagedSection>, cache: map<nat, CachedSection>,
                                            pageId: int, token: string, replies: seq<PostReply>)
    requires sections != []
    ensures PostFrom(sections, cache, pageId, token, replies).outcome.Resolved? <==>
      (forall k :: 0 <= k < |sections| ==> sections[k].id in cache)
      && |sections| <= |replies|
      && (forall k :: 0 <= k < |sections| ==> replies[k] == Reply(None))
    decreases |sections|
  {
    var section := sections[|sections| - 1];
    var rest := sections[..|sections| - 1];
    if rest != [] && replies != [] {
      PostFromResolves(rest, cache, pageId, token, replies[1..]);
      if (forall k :: 0 <= k < |sections| ==> sections[k].id in cache)
         && |sections| <= |replies|
         && (forall k :: 0 <= k < |sections| ==> replies[k] == Reply(None)) {
        assert forall k :: 0 <= k < |rest| ==> rest[k] == sections[k];
        assert forall k :: 0 <= k < |rest| ==> replies[1..][k] == replies[k + 1];
      }
      if PostFrom(sections, cache, pageId, token, replies).outcome.Resolved? {
        assert section.id in cache && replies[0] == Reply(None);
        forall k | 0 <= k < |sections|
          ensures sections[k].id in cache && replies[k] == Reply(None)
        {
          if k < |rest| {
            assert sections[k] == rest[k];
          }
          if k > 0 {
            assert replies[k] == replies[1..][k - 1];
          }
        }
      }
    } else if rest == [] {
      if section.id in cache && replies != [] && replies[0] == Reply(None) {
        assert forall k :: 0 <= k < |sections| ==> sections[k] == section && replies[k] == replies[0];
      }
    } else {
      assert sections[|sections| - 1].id in cache ==> PostFrom(sections, cache, pageId, token, replies).outcome.Pending?;
    }
  }

  /**
   * The run rejects exactly when the reply to its last post is an error,
   * and then with that reply's reason.
   */
  predicate RejectsOnErrorReply(run: SaveRun, replies: seq<PostReply>)
  {
    && (run.outcome.Rejected? <==>
          run.posted != [] && |run.posted| <= |replies| && RejectionOf(replies[|run.posted| - 1]).Some?)
    && (run.outcome.Rejected? ==>
          run.posted != [] && |run.posted| <= |replies|
          && RejectionOf(replies[|run.posted| - 1]) == Some(run.outcome.reason))
  }

  /**
   * A save rejects with the token request's reason when that fails, and
   * otherwise exactly when the reply to its last post is an error (the
   * server's error code, or "HTTP error" for a failed request), with that
   * reason.
   */
  lemma SaveRejects(stage: map<nat, StagedSection>, cache: map<nat, CachedSection>, pageId: int,
                    token: TokenReply, replies: seq<PostReply>)
    ensures token.TokenFailure? ==> SaveSpec(stage, cache, pageId, token, replies) == SaveRun(Rejected(token.reason), [])
    ensures token.Token? ==> RejectsOnErrorReply(SaveSpec(stage, cache, pageId, token, replies), replies)
  {
    if token.Token? && stage != map[] {
      var run := PostFrom(StagedInOrder(stage), cache, pageId, token.token, replies);
      PostFromOutcome(StagedInOrder(stage), cache, pageId, token.token, replies);
      assert RejectsOnErrorReply(run, replies);
    }
  }

  /**
   * A save with a token and something staged stays unsettled only while it
   * waits for a reply or has reached a section that was never fetched; with
   * nothing staged it never settles and posts nothing.
   */
  lemma SaveProgress(stage: map<nat, StagedSection>, cache: map<nat, CachedSection>, pageId: int,
                     token: TokenReply, replies: seq<PostReply>)
    ensures token.Token? && stage != map[] ==>
      StopsForReason(StagedInOrder(stage), cache, replies, SaveSpec(stage, cache, pageId, token, replies))
    ensures token.Token? && stage == map[] ==> SaveSpec(stage, cache, pageId, token, replies) == SaveRun(Pending, [])
  {
    if token.Token? && stage != map[] {
      PostFromProgress(StagedInOrder(stage), cache, pageId, token.token, replies);
    }
  }

  /**
   * A save resolves exactly when the token arrives, something is staged,
   * every staged section is cached, and every post gets a reply without
   * error.
   */
  lemma SaveResolves(stage: map<nat, StagedSection>, cache: map<nat, CachedSection>, pageId: int,
                     token: TokenReply, replies: seq<PostReply>)
    ensures SaveSpec(stage, cache, pageId, token, replies).outcome.Resolved? <==>
      && token.Token?
      && stage != map[]
      && (forall id :: id in stage ==> stage[id].id in cache)
      && |stage| <= |replies|
      && (forall k :: 0 <= k < |stage| ==> replies[k] == Reply(None))
  {
    if token.Token? && stage != map[] {
      var sections := StagedInOrder(stage);
      PostFromResolves(sections, cache, pageId, token.token, replies);
      StagedInOrderCached(stage, cache);
    }
  }

  /** Posting an ascending list from its end posts it in descending order. */
  lemma PopOrderDescending(sections: seq<StagedSection>, cache: map<nat, CachedSection>, pageId: int,
                           token: string, posted: seq<EditRequest>)
    requires forall i, j :: 0 <= i < j < |sections| ==> sections[i].id < sections[j].id
    requires PostedInPopOrder(sections, cache, pageId, token, posted)
    ensures forall i, j :: 0 <= i < j < |posted| ==> posted[i].section > posted[j].section
  {
    forall i, j | 0 <= i < j < |posted|
      ensures posted[i].section > posted[j].section
    {
      assert PostedAt(sections, cache, pageId, token, posted, i);
      assert PostedAt(sections, cache, pageId, token, posted, j);
    }
  }

  /**
   * With every staged section stored under its own id, a save posts the
   * sections in strictly descending id order: each at most once, highest
   * first.
   */
  lemma SavePostsDescending(stage: map<nat, StagedSection>, cache: map<nat, CachedSection>, pageId: int,
                            token: TokenReply, replies: seq<PostReply>)
    requires forall id :: id in stage ==> stage[id].id == id
    ensures var posted := SaveSpec(stage, cache, pageId, token, replies).posted;
      forall i, j :: 0 <= i < j < |posted| ==> posted[i].section > posted[j].section
  {
    if token.Token? && stage != map[] {
      var sections := StagedInOrder(stage);
      PostFromPosts(sections, cache, pageId, token.token, replies);
      StagedInOrderAscending(stage);
      PopOrderDescending(sections, cache, pageId, token.token,
                         PostFrom(sections, cache, pageId, token.token, replies).posted);
    }
  }

  /** The posts `posted` already made, followed by those of `run`. */
  function Prefixed(posted: seq<EditRequest>, run: SaveRun): SaveRun
  {
    SaveRun(run.outcome, posted + run.posted)
  }

  lemma PrefixedTwice(posted: seq<EditRequest>, request: EditRequest, run: SaveRun)
    ensures Prefixed(posted, Prefixed([request], run)) == Prefixed(posted + [request], run)
  {
    assert posted + ([request] + run.posted) == (posted + [request]) + run.posted;
  }

  /** One step of `saveSection`: a post answered without error goes on with the rest of the list. */
  lemma PostFromNext(sections: seq<StagedSection>, cache: map<nat, CachedSection>, pageId: int, token: string,
                     reply: PostReply, rest: seq<PostReply>)
    requires |sections| > 1
    requires sections[|sections| - 1].id in cache
    requires RejectionOf(reply).None?
    ensures PostFrom(sections, cache, pageId, token, [reply] + rest)
      == Prefixed([RequestFor(sections[|sections| - 1], cache, pageId, token)],
                  PostFrom(sections[..|sections| - 1], cache, pageId, token, rest))
  {
    assert ([reply] + rest)[0] == reply && ([reply] + rest)[1..] == rest;
  }

  // ---------------------------------------------------------------------
  // EditApi

  class EditApi {
    const pageId: int
    /** `_sectionCache`: fetched sections by id. */
    var sectionCache: map<nat, CachedSection>
    /** `_sectionStage`: edited sections by id. */
    var sectionStage: map<nat, StagedSection>

    /** Every entry is stored under its own id. */
    ghost predicate Valid()
      reads this
    {
      && (forall id :: id in sectionCache ==> sectionCache[id].section == id)
      && (forall id :: id in sectionStage ==> sectionStage[id].id == id)
    }

    constructor (pageId: int)
      ensures Valid()
      ensures this.pageId == pageId && sectionCache == map[] && sectionStage == map[]
    {
      this.pageId := pageId;
      sectionCache := map[];
      sectionStage := map[];
    }

    /**
     * `getSection(id)`: a cached section resolves at once and no query is
     * sent; otherwise the query for the section is sent and the result stays
     * pending until `ReceiveSection` delivers the response.
     */
    method GetSection(id: nat) returns (result: Settled<CachedSection>, query: Option<SectionQuery>)
      requires Valid()
      ensures id in sectionCache ==> result == Resolved(sectionCache[id]) && query == None
      ensures id !in sectionCache ==> result == Pending && query == Some(SectionQuery(pageId, id))
      ensures result.Resolved? ==> result.value.section == id
    {
      if id in sectionCache {
        result, query := Resolved(sectionCache[id]), None;
      } else {
        result, query := Pending, Some(SectionQuery(pageId, id));
      }
    }

    /**
     * The `done` callback of a section query: the section is cached (an
     * earlier entry for it is replaced, none is removed) and the Deferred
     * resolves with the new entry.
     */
    method ReceiveSection(id: nat, rev: Revision) returns (entry: CachedSection)
      requires Valid()
      modifies this
      ensures Valid()
      ensures entry == CachedSection(id, rev.timestamp, rev.content)
      ensures sectionCache == old(sectionCache)[id := entry]
      ensures old(sectionCache).Keys <= sectionCache.Keys
      ensures sectionStage == old(sectionStage)
    {
      entry := CachedSection(id, rev.timestamp, rev.content);
      sectionCache := sectionCache[id := entry];
    }

    /** `stageSection(id, content)`: replaces any earlier staging of the section. */
    method StageSection(id: nat, content: string)
      requires Valid()
      modifies this
      ensures Valid()
      ensures sectionStage == old(sectionStage)[id := StagedSection(id, content)]
      ensures sectionCache == old(sectionCache)
    {
      sectionStage := sectionStage[id := StagedSection(id, content)];
    }

    /**
     * `save()`: posts the staged sections one at a time, popping them from
     * the end of the list, and stops at the first reply that is an error.
     */
    method Save(token: TokenReply, replies: seq<PostReply>) returns (outcome: Settled<()>, posted: seq<EditRequest>)
      ensures SaveRun(outcome, posted) == SaveSpec(sectionStage, sectionCache, pageId, token, replies)
    {
      posted := [];
      if token.TokenFailure? {
        outcome := Rejected(token.reason);
        return;
      }
      var sections := StagedInOrder(sectionStage);
      if sections == [] {
        outcome := Pending;
        return;
      }
      var rest := replies;
      assert SaveSpec(sectionStage, sectionCache, pageId, token, replies)
        == PostFrom(sections, sectionCache, pageId, token.token, rest);
      assert [] + PostFrom(sections, sectionCache, pageId, token.token, rest).posted
        == PostFrom(sections, sectionCache, pageId, token.token, rest).posted;
      while true
        invariant sections != []
        invariant SaveSpec(sectionStage, sectionCache, pageId, token, replies)
          == Prefixed(posted, PostFrom(sections, sectionCache, pageId, token.token, rest))
        decreases |sections|
      {
        var section := sections[|sections| - 1];
        ghost var current := sections;
        sections := sections[..|sections| - 1];
        if section.id !in sectionCache {
          outcome := Pending;
          return;
        }
        var request := RequestFor(section, sectionCache, pageId, token.token);
        posted := posted + [request];
        if rest == [] {
          outcome := Pending;
          return;
        }
        var reply := rest[0];
        rest := rest[1..];
        if reply.HttpFailure? {
          outcome := Rejected("HTTP error");
          return;
        } else if reply.errorCode.Some? {
          outcome := Rejected(reply.errorCode.value);
          return;
        } else if sections == [] {
          outcome := Resolved(());
          return;
        }
        PostFromNext(current, sectionCache, pageId, token.token, reply, rest);
        PrefixedTwice(posted[..|posted| - 1], request, PostFrom(sections, sectionCache, pageId, token.token, rest));
      }
    }
  }

  // ---------------------------------------------------------------------
  // The guard on a loaded section

  /**
   * The guard of `_loadSection`'s callback as written: the loaded entry's
   * section is compared with the section that was requested.
   */
  predicate ShowsAsWritten(requested: nat, data: CachedSection)
  {
    data.section == requested
  }

  /**
   * The guard as its comment intends: the loaded section is shown only if it
   * is still the one being edited.
   */
  predicate ShowsLoaded(current: nat, data: CachedSection)
  {
    data.section == current
  }

  /**
   * As written the guard never drops anything: the entry a request resolves
   * with is the cache entry of the requested section, so a delayed response
   * for an earlier section passes it; the intended guard drops it.
   */
  lemma StaleResponsePassesGuard(requested: nat, current: nat, rev: Revision)
    requires requested != current
    ensures ShowsAsWritten(requested, CachedSection(requested, rev.timestamp, rev.content))
    ensures !ShowsLoaded(current, CachedSection(requested, rev.timestamp, rev.content))
  {
  }

  // ---------------------------------------------------------------------
  // EditOverlay

  class EditOverlay {
    const api: EditApi
    const sectionCount: int
    var changedCount: nat
    /** The section being edited. */
    var section: nat
    var prevDisabled: bool
    var nextDisabled: bool
    /** The textarea's value. */
    var text: string
    var contentShown: bool
    var loadingShown: bool
    /** Sections requested by `_loadSection` whose responses have not arrived yet. */
    var awaiting: seq<nat>
    var closed: bool
    /** The section whose content the textarea holds. */
    ghost var textSection: nat

    /** The buttons match the section and the API's state is well formed. */
    ghost predicate Consistent()
      reads this, api
    {
      && api.Valid()
      && prevDisabled == (section == 0)
      && nextDisabled == (section == sectionCount - 1)
      && contentShown == !loadingShown
    }

    /** In addition, a shown textarea holds the section being edited. */
    ghost predicate Valid()
      reads this, api
    {
      Consistent() && (contentShown ==> textSection == section)
    }

    /**
     * What loading the current section leaves: a cached section is shown,
     * otherwise the loading indicator is and the request waits.
     */
    ghost predicate Shown(awaitingBefore: seq<nat>, textBefore: string)
      reads this, api
    {
      && (section in api.sectionCache ==>
            text == api.sectionCache[section].content && contentShown && awaiting == awaitingBefore)
      && (section !in api.sectionCache ==>
            !contentShown && awaiting == awaitingBefore + [section] && text == textBefore)
    }

    /** `initialize`: no changes yet, then the first section is loaded. */
    constructor (pageId: int, section: nat, sectionCount: int)
      ensures Valid() && fresh(api)
      ensures api.pageId == pageId && api.sectionCache == map[] && api.sectionStage == map[]
      ensures this.sectionCount == sectionCount && changedCount == 0 && !closed
      ensures this.section == section && awaiting == [section] && loadingShown
    {
      api := new EditApi(pageId);
      this.sectionCount := sectionCount;
      changedCount := 0;
      this.section := section;
      prevDisabled := section == 0;
      nextDisabled := section == sectionCount - 1;
      text := "";
      contentShown := false;
      loadingShown := true;
      awaiting := [];
      closed := false;
      textSection := section;
      new;
      LoadSection(section);
    }

    /**
     * `_loadSection(s)`: disables prev exactly on the first section and next
     * exactly on the last, makes `s` current, and asks the API for it; a
     * cached section is shown at once, otherwise the request waits.
     */
    method LoadSection(s: nat)
      requires Valid()
      modifies this
      ensures Valid()
      ensures section == s && prevDisabled == (s == 0) && nextDisabled == (s == sectionCount - 1)
      ensures Shown(old(awaiting), old(text))
      ensures changedCount == old(changedCount) && closed == old(closed)
    {
      contentShown := false;
      loadingShown := true;
      prevDisabled := s == 0;
      nextDisabled := s == sectionCount - 1;
      section := s;
      var result, _ := api.GetSection(s);
      if result.Resolved? {
        if ShowsLoaded(section, result.value) {
          text := result.value.content;
          textSection := result.value.section;
          contentShown := true;
          loadingShown := false;
        }
      } else {
        awaiting := awaiting + [s];
      }
    }

    /** A click on the prev button, which does nothing while it is disabled. */
    method ClickPrev()
      requires Valid()
      modifies this
      ensures Valid()
      ensures old(section) == 0 ==> unchanged(this)
      ensures old(section) != 0 ==> section == old(section) - 1 && Shown(old(awaiting), old(text))
      ensures changedCount == old(changedCount) && closed == old(closed)
    {
      if !prevDisabled {
        LoadSection(section - 1);
      }
    }

    /** A click on the next button, which does nothing while it is disabled. */
    method ClickNext()
      requires Valid()
      modifies this
      ensures Valid()
      ensures old(section) == sectionCount - 1 ==> unchanged(this)
      ensures old(section) != sectionCount - 1 ==> section == old(section) + 1 && Shown(old(awaiting), old(text))
      ensures changedCount == old(changedCount) && closed == old(closed)
    {
      if !nextDisabled {
        LoadSection(section + 1);
      }
    }

    /** The textarea's `change` event: one more change, and the text is staged for the current section. */
    method Change(value: string)
      requires Consistent()
      modifies this, api
      ensures Consistent() && (old(Valid()) ==> Valid())
      ensures text == value && changedCount == old(changedCount) + 1 && section == old(section)
      ensures awaiting == old(awaiting) && contentShown == old(contentShown) && closed == old(closed)
      ensures api.sectionStage == old(api.sectionStage)[section := StagedSection(section, value)]
      ensures api.sectionCache == old(api.sectionCache)
    {
      text := value;
      changedCount := changedCount + 1;
      api.StageSection(section, text);
    }

    /**
     * `hide()`: without changes the overlay closes without asking; otherwise
     * the user is asked and it closes only on confirmation.
     */
    method Hide(confirmed: bool) returns (asked: bool)
      modifies this`closed
      ensures asked == (changedCount != 0)
      ensures closed == (old(closed) || changedCount == 0 || confirmed)
    {
      asked := changedCount != 0;
      if !asked || confirmed {
        closed := true;
      }
    }

    /**
     * The response to the i-th waiting request arrives: the API caches it,
     * and it is shown only if its section is still the current one.
     */
    method SectionArrived(i: nat, rev: Revision)
      requires Valid() && i < |awaiting|
      modifies this, api
      ensures Valid()
      ensures awaiting == old(awaiting[..i] + awaiting[i + 1..])
      ensures api.sectionCache == old(api.sectionCache)[old(awaiting[i]) :=
                CachedSection(old(awaiting[i]), rev.timestamp, rev.content)]
      ensures api.sectionStage == old(api.sectionStage)
      ensures old(awaiting[i]) == section ==> text == rev.content && contentShown
      ensures old(awaiting[i]) != section ==> text == old(text) && contentShown == old(contentShown)
      ensures section == old(section) && changedCount == old(changedCount) && closed == old(closed)
    {
      var s := awaiting[i];
      awaiting := awaiting[..i] + awaiting[i + 1..];
      var data := api.ReceiveSection(s, rev);
      if ShowsLoaded(section, data) {
        text := data.content;
        textSection := data.section;
        contentShown := true;
        loadingShown := false;
      }
    }

    /**
     * The same arrival with the guard as written: every response is shown,
     * even one for a section the user has already left.
     */
    method SectionArrivedAsWritten(i: nat, rev: Revision)
      requires Consistent() && i < |awaiting|
      modifies this, api
      ensures Consistent()
      ensures awaiting == old(awaiting[..i] + awaiting[i + 1..])
      ensures text == rev.content && contentShown && textSection == old(awaiting[i])
      ensures section == old(section) && changedCount == old(changedCount) && closed == old(closed)
      ensures api.sectionCache == old(api.sectionCache)[old(awaiting[i]) :=
                CachedSection(old(awaiting[i]), rev.timestamp, rev.content)]
      ensures api.sectionStage == old(api.sectionStage)
    {
      var s := awaiting[i];
      awaiting := awaiting[..i] + awaiting[i + 1..];
      var data := api.ReceiveSection(s, rev);
      if ShowsAsWritten(s, data) {
        text := data.content;
        textSection := data.section;
        contentShown := true;
        loadingShown := false;
      }
    }
  }

  /**
   * Two quick clicks on next, and the response for the first arrives last:
   * as written, section 1's text replaces section 2's in the textarea, and
   * the next change stages it as section 2.
   */
  method StaleResponseScenario() returns (shown: string, current: nat, staged: StagedSection)
    ensures current == 2 && shown == "one"
    ensures staged == StagedSection(2, "one, edited")
  {
    var overlay := new EditOverlay(7, 0, 3);
    overlay.SectionArrived(0, Revision("t0", "zero"));
    overlay.ClickNext();
    overlay.ClickNext();
    assert overlay.awaiting == [1, 2];
    overlay.SectionArrived(1, Revision("t2", "two"));
    assert overlay.text == "two" && overlay.section == 2;
    overlay.SectionArrivedAsWritten(0, Revision("t1", "one"));
    shown, current := overlay.text, overlay.section;
    overlay.Change("one, edited");
    staged := overlay.api.sectionStage[2];
  }
}
