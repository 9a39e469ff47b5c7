/**
 * The round lifecycle of the Poller cog in bot.py: set_forum_channel, start
 * and stop over the in_progress flag and the ledger.
 *
 * Each command runs under the cog's lock, so each is one sequential method
 * here. What the chat service returns is passed in: whether the forum channel
 * was found, the id of the k-th message a command sends (`sent`), and the
 * reactions a pending message carries when it is fetched (`fetch`).
 */
module Poller {
  import opened Wrappers
  import Reactions
  import Aggregator
  import CardFileName
  import opened Ledger

  /** A reaction on a fetched message: its emoji name and how many users reacted. */
  datatype Reaction = Reaction(emoji: string, count: int)

  /** The ten score buckets before any reaction is read. */
  const NoVotes: seq<int> := [0, 0, 0, 0, 0, 0, 0, 0, 0, 0]

  /**
   * The scores stop reads off a message: for each palette reaction, in order,
   * its bucket is set to its count less the poller's own reaction, so the last
   * reaction for a bucket wins; other reactions are skipped.
   */
  function Histogram(rs: seq<Reaction>): (h: seq<int>)
    ensures |h| == 10
  {
    if rs == [] then NoVotes
    else
      var h := Histogram(rs[..|rs| - 1]);
      var r := rs[|rs| - 1];
      match Reactions.ScoreFromReactionName(r.emoji)
      case None => h
      case Some(s) => h[s - 1 := r.count - 1]
  }

  /** A palette reaction with no later reaction of the same emoji sets its bucket. */
  lemma {:induction false} HistogramLastWins(rs: seq<Reaction>, i: nat)
    requires i < |rs| && rs[i].emoji in Reactions.Palette
    requires forall j :: i < j < |rs| ==> rs[j].emoji != rs[i].emoji
    ensures Reactions.ScoreFromReactionName(rs[i].emoji).Some?
    ensures Histogram(rs)[Reactions.ScoreFromReactionName(rs[i].emoji).value - 1] == rs[i].count - 1
  {
    var init := rs[..|rs| - 1];
    if i < |rs| - 1 {
      assert init[i] == rs[i];
      forall j | i < j < |init| ensures init[j].emoji != init[i].emoji {
        assert init[j] == rs[j];
      }
      HistogramLastWins(init, i);
    }
  }

  /** A bucket no reaction names keeps zero votes. */
  lemma {:induction false} HistogramUnreacted(rs: seq<Reaction>, b: nat)
    requires b < 10
    requires forall j :: 0 <= j < |rs| ==> rs[j].emoji != Reactions.Palette[b]
    ensures Histogram(rs)[b] == 0
  {
    if rs != [] {
      var init := rs[..|rs| - 1];
      forall j | 0 <= j < |init| ensures init[j].emoji != Reactions.Palette[b] {
        assert init[j] == rs[j];
      }
      HistogramUnreacted(init, b);
    }
  }

  /** With the poller's own reaction still counted, every bucket is non-negative. */
  lemma {:induction false} HistogramNonNegative(rs: seq<Reaction>)
    requires forall j :: 0 <= j < |rs| ==> rs[j].count >= 1
    ensures Aggregator.NonNegative(Histogram(rs))
  {
    if rs != [] {
      var init := rs[..|rs| - 1];
      forall j | 0 <= j < |init| ensures init[j].count >= 1 {
        assert init[j] == rs[j];
      }
      HistogramNonNegative(init);
    }
  }

  /** The scores loop of stop. */
  method ScoresFromReactions(rs: seq<Reaction>) returns (scores: seq<int>)
    ensures scores == Histogram(rs)
  {
    scores := NoVotes;
    for i := 0 to |rs|
      invariant scores == Histogram(rs[..i])
    {
      assert rs[..i + 1][..i] == rs[..i] && rs[..i + 1][i] == rs[i];
      var score := Reactions.ScoreFromReactionName(rs[i].emoji);
      if score.None? {
        continue;
      }
      scores := scores[score.value - 1 := rs[i].count - 1];
    }
    assert rs[..|rs|] == rs;
  }

  /** The message rows of a started round: the k-th card posted as message sent(k). */
  function PostedRows(channel: int, sent: nat -> int, group: seq<CardFileName.Card>): (rows: seq<MessageRow>)
    ensures |rows| == |group|
    ensures forall k :: 0 <= k < |group| ==> rows[k] == MessageRow(channel, sent(k), group[k].number)
  {
    seq(|group|, k requires 0 <= k < |group| => MessageRow(channel, sent(k), group[k].number))
  }

  /** What get_messages returns for the posted rows. */
  function PostedPending(sent: nat -> int, group: seq<CardFileName.Card>): seq<Pending>
  {
    seq(|group|, k requires 0 <= k < |group| => Pending(sent(k), group[k].number))
  }

  /** Rows all of one channel come back from get_messages as they are. */
  lemma {:induction false} MessagesOfPosted(channel: int, sent: nat -> int, group: seq<CardFileName.Card>)
    ensures MessagesOf(PostedRows(channel, sent, group), channel) == PostedPending(sent, group)
    decreases |group|
  {
    if group != [] {
      var init := group[..|group| - 1];
      MessagesOfPosted(channel, sent, init);
      assert PostedRows(channel, sent, group)[..|group| - 1] == PostedRows(channel, sent, init);
      assert PostedPending(sent, group) == PostedPending(sent, init) + [Pending(sent(|init|), group[|init|].number)];
    }
  }

  /** remove_summary of each id in turn. */
  function WithoutSummaries(rows: seq<SummaryRow>, ids: seq<int>): (r: seq<SummaryRow>)
    ensures forall row :: row in r <==> row in rows && row.id !in ids
  {
    if ids == [] then rows
    else
      var last := ids[|ids| - 1];
      assert ids == ids[..|ids| - 1] + [last];
      WithoutSummary(WithoutSummaries(rows, ids[..|ids| - 1]), last)
  }

  /** The numbers of the pending rows. */
  function NumbersOf(ps: seq<Pending>): set<nat>
  {
    set i | 0 <= i < |ps| :: ps[i].number
  }

  /** The message ids of the pending rows. */
  function IdsOf(ps: seq<Pending>): set<int>
  {
    set i | 0 <= i < |ps| :: ps[i].id
  }

  /** mark_has_voted of each pending card in turn. */
  function VotedAll(cards: map<nat, CardRow>, ps: seq<Pending>): (r: map<nat, CardRow>)
    ensures r.Keys == cards.Keys
    ensures forall n :: n in cards ==> r[n].name == cards[n].name && r[n].rarity == cards[n].rarity
    ensures forall n :: n in cards && n in NumbersOf(ps) ==> r[n].voted
    ensures forall n :: n in cards && n !in NumbersOf(ps) ==> r[n] == cards[n]
  {
    if ps == [] then cards
    else
      var init := ps[..|ps| - 1];
      assert NumbersOf(ps) == NumbersOf(init) + {ps[|ps| - 1].number} by {
        assert forall i :: 0 <= i < |init| ==> init[i] == ps[i];
      }
      MarkVoted(VotedAll(cards, init), ps[|ps| - 1].number)
  }

  /** Marking cards voted leaves every name where it was. */
  lemma VotedAllKeepsNames(cards: map<nat, CardRow>, ps: seq<Pending>, n: nat)
    ensures NameIn(VotedAll(cards, ps), n) == NameIn(cards, n)
  {
  }

  /** add_scores of each pending card's histogram in turn. */
  function ScoredAll(votes: map<(nat, int), int>, ps: seq<Pending>, fetch: int -> seq<Reaction>): (r: map<(nat, int), int>)
    ensures forall k :: k in votes && k.0 !in NumbersOf(ps) ==> k in r && r[k] == votes[k]
    ensures forall k :: k in r && k.0 !in NumbersOf(ps) ==> k in votes
  {
    if ps == [] then votes
    else
      var init := ps[..|ps| - 1];
      var p := ps[|ps| - 1];
      assert NumbersOf(ps) == NumbersOf(init) + {p.number} by {
        assert forall i :: 0 <= i < |init| ==> init[i] == ps[i];
      }
      WithScores(ScoredAll(votes, init, fetch), p.number, Histogram(fetch(p.id)))
  }

  /**
   * What the tally writes for a card: bucket b of the histogram of its last
   * pending message is the vote count stored under (number, b + 1).
   */
  lemma {:induction false} ScoredAllLast(votes: map<(nat, int), int>, ps: seq<Pending>, fetch: int -> seq<Reaction>, k: nat, b: nat)
    requires k < |ps| && b < 10
    requires forall j :: k < j < |ps| ==> ps[j].number != ps[k].number
    ensures (ps[k].number, b + 1) in ScoredAll(votes, ps, fetch)
    ensures ScoredAll(votes, ps, fetch)[(ps[k].number, b + 1)] == Histogram(fetch(ps[k].id))[b]
    decreases |ps|
  {
    var init := ps[..|ps| - 1];
    var p := ps[|ps| - 1];
    if k < |ps| - 1 {
      assert init[k] == ps[k];
      forall j | k < j < |init| ensures init[j].number != init[k].number {
        assert init[j] == ps[j];
      }
      ScoredAllLast(votes, init, fetch, k, b);
      assert p.number != ps[k].number;
    }
  }

  /** remove_message of each pending message in turn. */
  function RemovedAll(rows: seq<MessageRow>, ps: seq<Pending>): (r: seq<MessageRow>)
    ensures forall row :: row in r <==> row in rows && row.id !in IdsOf(ps)
  {
    if ps == [] then rows
    else
      var init := ps[..|ps| - 1];
      var p := ps[|ps| - 1];
      assert IdsOf(ps) == IdsOf(init) + {p.id} by {
        assert forall i :: 0 <= i < |init| ==> init[i] == ps[i];
      }
      WithoutMessage(RemovedAll(rows, init), p.id)
  }

  /** Once every pending message of a channel is removed, the channel has none. */
  lemma NoPendingLeft(rows: seq<MessageRow>, channel: int)
    ensures forall p :: p !in MessagesOf(RemovedAll(rows, MessagesOf(rows, channel)), channel)
  {
    var ps := MessagesOf(rows, channel);
    forall p ensures p !in MessagesOf(RemovedAll(rows, ps), channel) {
      if MessageRow(channel, p.id, p.number) in rows {
        assert p in ps;
        var j :| 0 <= j < |ps| && ps[j] == p;
        assert p.id in IdsOf(ps);
      }
    }
  }

  /** The summaries rows stop posts: one per pending card and a closing one, the k-th posted as message posted(k). */
  function SummaryRows(channel: int, posted: nat -> int, n: nat): (rows: seq<SummaryRow>)
    ensures |rows| == n
  {
    if n == 0 then [] else SummaryRows(channel, posted, n - 1) + [SummaryRow(channel, posted(n - 1))]
  }

  /** The k-th summary row is the one posted k-th. */
  lemma {:induction false} SummaryRowsAt(channel: int, posted: nat -> int, n: nat, k: nat)
    requires k < n
    ensures SummaryRows(channel, posted, n)[k] == SummaryRow(channel, posted(k))
  {
    if k < n - 1 {
      SummaryRowsAt(channel, posted, n - 1, k);
    }
  }

  /** A result stop posts for one card: its number, name, raw scores and tally. */
  datatype Summary = Summary(number: nat, name: Option<string>, scores: seq<int>, tally: Aggregator.Tally)

  /** The summary stop posts for a pending message, with names looked up in `cards`. */
  function SummaryOf(cards: map<nat, CardRow>, p: Pending, fetch: int -> seq<Reaction>): Summary
  {
    var h := Histogram(fetch(p.id));
    Summary(p.number, NameIn(cards, p.number), h, Aggregator.Aggregate(h))
  }

  /** The summaries stop posts for the pending messages, in order. */
  function SummariesOf(cards: map<nat, CardRow>, ps: seq<Pending>, fetch: int -> seq<Reaction>): (r: seq<Summary>)
    ensures |r| == |ps|
  {
    if ps == [] then [] else SummariesOf(cards, ps[..|ps| - 1], fetch) + [SummaryOf(cards, ps[|ps| - 1], fetch)]
  }

  /**
   * The k-th summary is for the k-th pending message: its card number and
   * name, the histogram of the message's reactions, and the tally of it.
   */
  lemma {:induction false} SummariesOfAt(cards: map<nat, CardRow>, ps: seq<Pending>, fetch: int -> seq<Reaction>, k: nat)
    requires k < |ps|
    ensures var s := SummariesOf(cards, ps, fetch)[k];
      s.number == ps[k].number && s.name == NameIn(cards, ps[k].number) &&
      s.scores == Histogram(fetch(ps[k].id)) && s.tally == Aggregator.Aggregate(s.scores)
  {
    var init := ps[..|ps| - 1];
    var front := SummariesOf(cards, init, fetch);
    assert SummariesOf(cards, ps, fetch) == front + [SummaryOf(cards, ps[|ps| - 1], fetch)];
    if k < |init| {
      SummariesOfAt(cards, init, fetch, k);
      assert init[k] == ps[k];
      assert SummariesOf(cards, ps, fetch)[k] == front[k];
    }
  }

  /** One more pending message is one more mark_has_voted. */
  lemma VotedAllStep(cards: map<nat, CardRow>, ps: seq<Pending>, k: nat)
    requires k < |ps|
    ensures VotedAll(cards, ps[..k + 1]) == MarkVoted(VotedAll(cards, ps[..k]), ps[k].number)
  {
    assert ps[..k + 1][..k] == ps[..k];
  }

  /** One more pending message is one more add_scores. */
  lemma ScoredAllStep(votes: map<(nat, int), int>, ps: seq<Pending>, k: nat, fetch: int -> seq<Reaction>)
    requires k < |ps|
    ensures ScoredAll(votes, ps[..k + 1], fetch) ==
      WithScores(ScoredAll(votes, ps[..k], fetch), ps[k].number, Histogram(fetch(ps[k].id)))
  {
    assert ps[..k + 1][..k] == ps[..k];
  }

  /** One more pending message is one more remove_message. */
  lemma RemovedAllStep(rows: seq<MessageRow>, ps: seq<Pending>, k: nat)
    requires k < |ps|
    ensures RemovedAll(rows, ps[..k + 1]) == WithoutMessage(RemovedAll(rows, ps[..k]), ps[k].id)
  {
    assert ps[..k + 1][..k] == ps[..k];
  }

  /** One more pending message is one more summary. */
  lemma SummariesOfStep(cards: map<nat, CardRow>, ps: seq<Pending>, k: nat, fetch: int -> seq<Reaction>)
    requires k < |ps|
    ensures SummariesOf(cards, ps[..k + 1], fetch) == SummariesOf(cards, ps[..k], fetch) + [SummaryOf(cards, ps[k], fetch)]
  {
    assert ps[..k + 1][..k] == ps[..k];
  }

  datatype StartOutcome = NotConfigured | ForumNotFound | AlreadyInProgress | Started(group: seq<CardFileName.Card>)

  datatype StopOutcome = NotInProgress | Tallied(summaries: seq<Summary>, cost: Option<int>, remaining: nat)

  class Poller {
    const db: DB
    const shouldDeleteMessages: bool
    var inProgress: bool

    constructor(db: DB, shouldDeleteMessages: bool)
      ensures this.db == db && this.shouldDeleteMessages == shouldDeleteMessages
      ensures !inProgress
    {
      this.db := db;
      this.shouldDeleteMessages := shouldDeleteMessages;
      inProgress := false;
    }

    /** set_forum_channel: records the forum channel and changes nothing else. */
    method SetForumChannel(channel: int)
      modifies db
      ensures db.forumChan == Some(channel)
      ensures db.cards == old(db.cards) && db.votes == old(db.votes)
      ensures db.messages == old(db.messages) && db.summaries == old(db.summaries)
    {
      db.SetForumChan(channel);
    }

    /** The first step of a new round: remove_summary for each of the channel's summaries. */
    method ClearSummaries(channel: int)
      modifies db
      ensures db.summaries == WithoutSummaries(old(db.summaries), old(db.GetSummaries(channel)))
      ensures db.cards == old(db.cards) && db.votes == old(db.votes)
      ensures db.messages == old(db.messages) && db.forumChan == old(db.forumChan)
    {
      var ids := db.GetSummaries(channel);
      for k := 0 to |ids|
        invariant db.summaries == WithoutSummaries(old(db.summaries), ids[..k])
        invariant db.cards == old(db.cards) && db.votes == old(db.votes)
        invariant db.messages == old(db.messages) && db.forumChan == old(db.forumChan)
      {
        assert ids[..k + 1][..k] == ids[..k];
        db.RemoveSummary(ids[k]);
      }
      assert ids[..|ids|] == ids;
    }

    /**
     * The posting loop of start: at most `size` distinct unvoted cards, the
     * k-th posted as message sent(k), recorded in one insert at the end.
     */
    method PostGroup(channel: int, size: int, sent: nat -> int) returns (group: seq<CardFileName.Card>)
      modifies db
      ensures |group| == if 0 <= size < old(|db.Unvoted()|) then size else old(|db.Unvoted()|)
      ensures forall i :: 0 <= i < |group| ==> old(db.IsUnvotedCard(group[i]))
      ensures forall i, j :: 0 <= i < j < |group| ==> group[i].number != group[j].number
      ensures db.messages == old(db.messages) + PostedRows(channel, sent, group)
      ensures db.cards == old(db.cards) && db.votes == old(db.votes)
      ensures db.summaries == old(db.summaries) && db.forumChan == old(db.forumChan)
    {
      group := db.NextGroup(size);
      var rows: seq<MessageRow> := [];
      for k := 0 to |group|
        invariant |rows| == k
        invariant forall j :: 0 <= j < k ==> rows[j] == MessageRow(channel, sent(j), group[j].number)
      {
        rows := rows + [MessageRow(channel, sent(k), group[k].number)];
      }
      assert rows == PostedRows(channel, sent, group);
      db.InsertMessages(rows);
    }

    /**
     * start: refuses without a forum channel, without the forum, or with a
     * round in progress (by the flag or by the channel's pending messages,
     * which also set the flag); otherwise sets the flag, clears the channel's
     * old summaries and posts the group.
     */
    method Start(channel: int, size: int, forumFound: bool, sent: nat -> int) returns (outcome: StartOutcome)
      requires 1 <= size <= 6
      modifies this, db
      ensures outcome.NotConfigured? <==> old(db.forumChan).None?
      ensures outcome.ForumNotFound? <==> old(db.forumChan).Some? && !forumFound
      ensures outcome.AlreadyInProgress? <==>
        old(db.forumChan).Some? && forumFound && (old(inProgress) || old(db.GetMessages(channel)) != [])
      ensures !outcome.Started? ==>
        db.cards == old(db.cards) && db.votes == old(db.votes) &&
        db.messages == old(db.messages) && db.summaries == old(db.summaries)
      ensures outcome.NotConfigured? || outcome.ForumNotFound? ==> inProgress == old(inProgress)
      ensures outcome.AlreadyInProgress? || outcome.Started? ==> inProgress
      ensures outcome.Started? ==>
        var group := outcome.group;
        |group| == (if size < old(|db.Unvoted()|) then size else old(|db.Unvoted()|)) &&
        (forall i :: 0 <= i < |group| ==> old(db.IsUnvotedCard(group[i]))) &&
        (forall i, j :: 0 <= i < j < |group| ==> group[i].number != group[j].number) &&
        db.messages == old(db.messages) + PostedRows(channel, sent, group) &&
        db.GetMessages(channel) == PostedPending(sent, group) &&
        db.summaries == WithoutSummaries(old(db.summaries), old(db.GetSummaries(channel))) &&
        db.cards == old(db.cards) && db.votes == old(db.votes)
      ensures db.forumChan == old(db.forumChan)
    {
      var forum := db.GetForumChan();
      if forum.None? {
        return NotConfigured;
      }
      if !forumFound {
        return ForumNotFound;
      }
      if inProgress {
        return AlreadyInProgress;
      }
      if db.GetMessages(channel) != [] {
        inProgress := true;
        return AlreadyInProgress;
      }
      inProgress := true;
      ClearSummaries(channel);
      var group := PostGroup(channel, size, sent);
      MessagesOfAppend(old(db.messages), PostedRows(channel, sent, group), channel);
      MessagesOfPosted(channel, sent, group);
      outcome := Started(group);
    }

    /**
     * The body of stop's loop for one pending message: votes, voted flag,
     * name lookup, tally, and removal of the message row.
     */
    method TallyOne(p: Pending, fetch: int -> seq<Reaction>) returns (summary: Summary)
      modifies db
      ensures db.votes == WithScores(old(db.votes), p.number, Histogram(fetch(p.id)))
      ensures db.cards == MarkVoted(old(db.cards), p.number)
      ensures db.messages == WithoutMessage(old(db.messages), p.id)
      ensures db.summaries == old(db.summaries) && db.forumChan == old(db.forumChan)
      ensures summary == SummaryOf(old(db.cards), p, fetch)
    {
      var scores := ScoresFromReactions(fetch(p.id));
      db.AddScores(p.number, scores);
      db.MarkHasVoted(p.number);
      var name := db.GetName(p.number);
      var copy := new int[|scores|](i requires 0 <= i < |scores| => scores[i]);
      assert copy[..] == scores;
      var tally := Aggregator.WeightedAverage(copy);
      summary := Summary(p.number, name, scores, tally);
      db.RemoveMessage(p.id);
    }

    /** The loop of stop over the pending messages, in ledger order. */
    method TallyAll(channel: int, pending: seq<Pending>, fetch: int -> seq<Reaction>, posted: nat -> int)
      returns (results: seq<Summary>, rows: seq<SummaryRow>)
      modifies db
      ensures db.cards == VotedAll(old(db.cards), pending)
      ensures db.votes == ScoredAll(old(db.votes), pending, fetch)
      ensures db.messages == RemovedAll(old(db.messages), pending)
      ensures db.summaries == old(db.summaries) && db.forumChan == old(db.forumChan)
      ensures rows == SummaryRows(channel, posted, |pending|)
      ensures results == SummariesOf(old(db.cards), pending, fetch)
    {
      ghost var cards0, votes0, messages0 := db.cards, db.votes, db.messages;
      results := [];
      rows := [];
      for k := 0 to |pending|
        invariant db.cards == VotedAll(cards0, pending[..k])
        invariant db.votes == ScoredAll(votes0, pending[..k], fetch)
        invariant db.messages == RemovedAll(messages0, pending[..k])
        invariant db.summaries == old(db.summaries) && db.forumChan == old(db.forumChan)
        invariant rows == SummaryRows(channel, posted, k)
        invariant results == SummariesOf(cards0, pending[..k], fetch)
      {
        var p := pending[k];
        VotedAllStep(cards0, pending, k);
        ScoredAllStep(votes0, pending, k, fetch);
        RemovedAllStep(messages0, pending, k);
        SummariesOfStep(cards0, pending, k, fetch);
        VotedAllKeepsNames(cards0, pending[..k], p.number);
        var summary := TallyOne(p, fetch);
        assert summary == SummaryOf(cards0, p, fetch);
        results := results + [summary];
        rows := rows + [SummaryRow(channel, posted(k))];
      }
      assert pending[..|pending|] == pending;
    }

    /**
     * stop: a channel with pending messages is in progress whatever the flag
     * says; when no round is in progress nothing changes. Otherwise every
     * pending message is tallied, the summaries (one per card and a closing
     * count of the cards left at the lowest cost) are recorded and the flag
     * is cleared.
     */
    method Stop(channel: int, fetch: int -> seq<Reaction>, posted: nat -> int) returns (outcome: StopOutcome)
      modifies this, db
      ensures outcome.NotInProgress? <==> !old(inProgress) && old(db.GetMessages(channel)) == []
      ensures outcome.NotInProgress? ==>
        !inProgress && db.cards == old(db.cards) && db.votes == old(db.votes) &&
        db.messages == old(db.messages) && db.summaries == old(db.summaries)
      ensures outcome.Tallied? ==>
        var pending := old(db.GetMessages(channel));
        !inProgress &&
        db.cards == VotedAll(old(db.cards), pending) &&
        db.votes == ScoredAll(old(db.votes), pending, fetch) &&
        db.messages == RemovedAll(old(db.messages), pending) &&
        (forall p :: p !in db.GetMessages(channel)) &&
        db.summaries == old(db.summaries) + SummaryRows(channel, posted, |pending| + 1) &&
        outcome.summaries == SummariesOf(old(db.cards), pending, fetch)
      ensures outcome.Tallied? ==>
        (outcome.cost.None? <==> old(db.Unvoted()) == {}) &&
        (outcome.cost.Some? ==> old(db.IsLowestCost(outcome.cost.value))) &&
        outcome.remaining == (if outcome.cost.Some? then db.NumberForCost(outcome.cost.value) else 0)
      ensures db.forumChan == old(db.forumChan)
    {
      if db.GetMessages(channel) != [] {
        inProgress := true;
      }
      if !inProgress {
        return NotInProgress;
      }
      var pending := db.GetMessages(channel);
      var cost := db.GetLowestCost();
      var results, rows := TallyAll(channel, pending, fetch, posted);
      var remaining := if cost.Some? then db.NumberForCost(cost.value) else 0;
      rows := rows + [SummaryRow(channel, posted(|pending|))];
      assert rows == SummaryRows(channel, posted, |pending| + 1);
      db.InsertSummaries(rows);
      NoPendingLeft(old(db.messages), channel);
      inProgress := false;
      outcome := Tallied(results, cost, remaining);
    }
  }
}
