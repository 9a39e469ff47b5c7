/**
 * The round ledger of db.py: the DB object and its tables, held in memory.
 *
 * - cards: number -> (name, rarity, voted), keyed by number (cards table).
 * - votes: (number, score) -> votes, keyed by the pair (votes table).
 * - messages: the in-flight (channel id, message id, number) rows, with no
 *   key, in insertion order (messages table).
 * - summaries: the (channel id, message id) rows of posted results.
 * - forumChan: the configured forum channel, if any.
 *
 * The last two tables and the queries over them (and get_lowest_cost and
 * number_for_cost) are called from bot.py but not defined in db.py; they are
 * modelled here on the same pattern as the tables db.py does define, with the
 * cost of a card taken to be cost_for of its name over the tier lists.
 */
module Ledger {
  import opened Wrappers
  import CardFileName
  import Manifest

  /** A cards row without its key. */
  datatype CardRow = CardRow(name: string, rarity: string, voted: bool)

  /** A messages row: a posted card awaiting its votes. */
  datatype MessageRow = MessageRow(channel: int, id: int, number: nat)

  /** What get_messages returns for one row: the message id and the card number. */
  datatype Pending = Pending(id: int, number: nat)

  /** A summaries row: a posted results message. */
  datatype SummaryRow = SummaryRow(channel: int, id: int)

  /** The contents of the database file the DB object is opened on. */
  datatype Store = Store(
    cards: map<nat, CardRow>,
    votes: map<(nat, int), int>,
    messages: seq<MessageRow>,
    summaries: seq<SummaryRow>,
    forumChan: Option<int>)

  /**
   * The seeding loop of DB.__init__: the groups of every walked file name
   * that matches the pattern, in walk order.
   */
  method ScanGallery(files: seq<string>) returns (data: seq<CardFileName.Card>)
    ensures data == CardFileName.Matches(files)
  {
    data := [];
    for i := 0 to |files|
      invariant data == CardFileName.Matches(files[..i])
    {
      assert files[..i + 1] == files[..i] + [files[i]];
      CardFileName.MatchesSnoc(files[..i], files[i]);
      var result := CardFileName.Parse(files[i]);
      if result.None? {
        continue;
      }
      data := data + [result.value];
    }
    assert files[..|files|] == files;
  }

  /**
   * executemany of `INSERT OR IGNORE INTO cards VALUES(?, ?, ?, 0)`: the rows
   * are inserted in order, and a row whose number is already present (stored
   * earlier, or inserted by an earlier row) is skipped.
   */
  function InsertOrIgnore(cards: map<nat, CardRow>, data: seq<CardFileName.Card>): (r: map<nat, CardRow>)
    ensures forall n :: n in cards ==> n in r && r[n] == cards[n]
    ensures forall i :: 0 <= i < |data| ==> data[i].number in r
    ensures forall n :: n in r && n !in cards ==> !r[n].voted
    decreases |data|
  {
    if data == [] then cards
    else
      var c := data[0];
      var next := if c.number in cards then cards else cards[c.number := CardRow(c.name, c.rarity, false)];
      InsertOrIgnore(next, data[1..])
  }

  /** A number new to the table gets the row of the first card with it, unvoted. */
  lemma {:induction false} InsertOrIgnoreFirstWins(cards: map<nat, CardRow>, data: seq<CardFileName.Card>, i: nat)
    requires i < |data| && data[i].number !in cards
    requires forall j :: 0 <= j < i ==> data[j].number != data[i].number
    ensures InsertOrIgnore(cards, data)[data[i].number] == CardRow(data[i].name, data[i].rarity, false)
    decreases |data|
  {
    var c := data[0];
    var next := if c.number in cards then cards else cards[c.number := CardRow(c.name, c.rarity, false)];
    if i > 0 {
      assert data[i].number !in next;
      forall j | 0 <= j < i - 1 ensures data[1..][j].number != data[1..][i - 1].number {
        assert data[1..][j] == data[j + 1];
      }
      InsertOrIgnoreFirstWins(next, data[1..], i - 1);
    }
  }

  /** The table holds only stored numbers and seeded numbers. */
  lemma {:induction false} InsertOrIgnoreKeys(cards: map<nat, CardRow>, data: seq<CardFileName.Card>, n: nat)
    ensures n in InsertOrIgnore(cards, data) <==> n in cards || exists i :: 0 <= i < |data| && data[i].number == n
    decreases |data|
  {
    if data != [] {
      var c := data[0];
      var next := if c.number in cards then cards else cards[c.number := CardRow(c.name, c.rarity, false)];
      InsertOrIgnoreKeys(next, data[1..], n);
      if exists i :: 0 <= i < |data[1..]| && data[1..][i].number == n {
        var i :| 0 <= i < |data[1..]| && data[1..][i].number == n;
        assert data[i + 1].number == n;
      }
      if exists i :: 0 <= i < |data| && data[i].number == n {
        var i :| 0 <= i < |data| && data[i].number == n;
        if i > 0 {
          assert data[1..][i - 1].number == n;
        }
      }
    }
  }

  /** get_messages: the (id, number) of every row of the channel, in table order. */
  function MessagesOf(rows: seq<MessageRow>, channel: int): (r: seq<Pending>)
    ensures |r| <= |rows|
    ensures forall p :: p in r <==> MessageRow(channel, p.id, p.number) in rows
  {
    if rows == [] then []
    else
      var init := MessagesOf(rows[..|rows| - 1], channel);
      var row := rows[|rows| - 1];
      assert rows == rows[..|rows| - 1] + [row];
      if row.channel == channel then init + [Pending(row.id, row.number)] else init
  }

  /** Appending rows appends their channel's pairs after the existing ones. */
  lemma {:induction false} MessagesOfAppend(a: seq<MessageRow>, b: seq<MessageRow>, channel: int)
    ensures MessagesOf(a + b, channel) == MessagesOf(a, channel) + MessagesOf(b, channel)
    decreases |b|
  {
    if b != [] {
      var last := |b| - 1;
      assert (a + b)[..|a + b| - 1] == a + b[..last];
      assert (a + b)[|a + b| - 1] == b[last];
      MessagesOfAppend(a, b[..last], channel);
      var tail := if b[last].channel == channel then [Pending(b[last].id, b[last].number)] else [];
      assert MessagesOf(b, channel) == MessagesOf(b[..last], channel) + tail;
      assert MessagesOf(a + b, channel) == MessagesOf(a + b[..last], channel) + tail;
    } else {
      assert a + b == a;
    }
  }

  /** `DELETE FROM messages WHERE id = ?`: every row with the id goes, the others stay in order. */
  function WithoutMessage(rows: seq<MessageRow>, id: int): (r: seq<MessageRow>)
    ensures forall row :: row in r <==> row in rows && row.id != id
    ensures forall row: MessageRow :: row.id != id ==> multiset(r)[row] == multiset(rows)[row]
  {
    if rows == [] then []
    else
      var init := rows[..|rows| - 1];
      var row := rows[|rows| - 1];
      assert rows == init + [row];
      if row.id == id then WithoutMessage(init, id) else WithoutMessage(init, id) + [row]
  }

  /** Deleting an id no row has changes nothing. */
  lemma {:induction false} WithoutAbsentMessage(rows: seq<MessageRow>, id: int)
    requires forall i :: 0 <= i < |rows| ==> rows[i].id != id
    ensures WithoutMessage(rows, id) == rows
  {
    if rows != [] {
      var init := rows[..|rows| - 1];
      WithoutAbsentMessage(init, id);
      assert rows == init + [rows[|rows| - 1]];
    }
  }

  /** get_summaries: the message ids of the channel's summary rows, in table order. */
  function SummaryIds(rows: seq<SummaryRow>, channel: int): (r: seq<int>)
    ensures forall id :: id in r <==> SummaryRow(channel, id) in rows
  {
    if rows == [] then []
    else
      var init := SummaryIds(rows[..|rows| - 1], channel);
      var row := rows[|rows| - 1];
      assert rows == rows[..|rows| - 1] + [row];
      if row.channel == channel then init + [row.id] else init
  }

  /** remove_summary: every summary row with the id goes, the others stay in order. */
  function WithoutSummary(rows: seq<SummaryRow>, id: int): (r: seq<SummaryRow>)
    ensures forall row :: row in r <==> row in rows && row.id != id
  {
    if rows == [] then []
    else
      var init := rows[..|rows| - 1];
      var row := rows[|rows| - 1];
      assert rows == init + [row];
      if row.id == id then WithoutSummary(init, id) else WithoutSummary(init, id) + [row]
  }

  /**
   * executemany of `INSERT OR REPLACE INTO votes` over the rows
   * (number, x + 1, scores[x]) taken in order of x.
   */
  function WithScores(votes: map<(nat, int), int>, number: nat, scores: seq<int>): (r: map<(nat, int), int>)
    ensures forall x :: 0 <= x < |scores| ==> (number, x + 1) in r && r[(number, x + 1)] == scores[x]
    ensures forall k :: k in r <==> k in votes || (k.0 == number && 1 <= k.1 <= |scores|)
    ensures forall k :: k in votes && !(k.0 == number && 1 <= k.1 <= |scores|) ==> r[k] == votes[k]
  {
    if scores == [] then votes
    else WithScores(votes, number, scores[..|scores| - 1])[(number, |scores|) := scores[|scores| - 1]]
  }

  /** `UPDATE cards SET voted = 1 WHERE number = ?`. */
  function MarkVoted(cards: map<nat, CardRow>, number: nat): (r: map<nat, CardRow>)
    ensures r.Keys == cards.Keys
    ensures number in cards ==> r[number] == CardRow(cards[number].name, cards[number].rarity, true)
    ensures forall n :: n in cards && n != number ==> r[n] == cards[n]
  {
    if number in cards then cards[number := cards[number].(voted := true)] else cards
  }

  /** Marking a card voted twice is the same as marking it once. */
  lemma MarkVotedIdempotent(cards: map<nat, CardRow>, number: nat)
    ensures MarkVoted(MarkVoted(cards, number), number) == MarkVoted(cards, number)
  {
    var once := MarkVoted(cards, number);
    assert forall n :: n in once ==> MarkVoted(once, number)[n] == once[n];
  }

  /** The name column of the row with the number, if there is one. */
  function NameIn(cards: map<nat, CardRow>, number: nat): Option<string>
  {
    if number in cards then Some(cards[number].name) else None
  }

  /** The numbers of the not-yet-voted cards. */
  function UnvotedIn(cards: map<nat, CardRow>): set<nat>
  {
    set n | n in cards && !cards[n].voted
  }

  /** A subset is no larger than the set. */
  lemma {:induction false} SubsetSize(a: set<nat>, b: set<nat>)
    requires a <= b
    ensures |a| <= |b|
    decreases a
  {
    if a != {} {
      var x :| x in a;
      SubsetSize(a - {x}, b - {x});
    }
  }

  /** The elements of a set, each once, in an order left open. */
  method Shuffle(s: set<nat>) returns (order: seq<nat>)
    ensures |order| == |s|
    ensures forall i :: 0 <= i < |order| ==> order[i] in s
    ensures forall i, j :: 0 <= i < j < |order| ==> order[i] != order[j]
  {
    var left := s;
    order := [];
    while left != {}
      invariant left <= s
      invariant |order| + |left| == |s|
      invariant forall i :: 0 <= i < |order| ==> order[i] in s && order[i] !in left
      invariant forall i, j :: 0 <= i < j < |order| ==> order[i] != order[j]
      decreases |left|
    {
      var x :| x in left;
      order := order + [x];
      left := left - {x};
    }
  }

  class DB {
    var cards: map<nat, CardRow>
    var votes: map<(nat, int), int>
    var messages: seq<MessageRow>
    var summaries: seq<SummaryRow>
    var forumChan: Option<int>
    const galleryPath: string
    const roundSize: int
    /** The cost tier lists a card's cost is looked up in. */
    const costs: seq<seq<string>>

    /**
     * Opening the ledger on `stored` and seeding it from the walked gallery
     * file names: every matching name is offered to the cards table with
     * voted = 0, and numbers already present keep their row.
     */
    constructor(stored: Store, galleryPath: string, roundSize: int, costs: seq<seq<string>>, files: seq<string>)
      ensures cards == InsertOrIgnore(stored.cards, CardFileName.Matches(files))
      ensures votes == stored.votes && messages == stored.messages
      ensures summaries == stored.summaries && forumChan == stored.forumChan
      ensures this.galleryPath == galleryPath && this.roundSize == roundSize && this.costs == costs
    {
      this.galleryPath := galleryPath;
      this.roundSize := roundSize;
      this.costs := costs;
      var data := ScanGallery(files);
      cards := InsertOrIgnore(stored.cards, data);
      votes := stored.votes;
      messages := stored.messages;
      summaries := stored.summaries;
      forumChan := stored.forumChan;
    }

    function Unvoted(): set<nat>
      reads this`cards
    {
      UnvotedIn(cards)
    }

    /** The cost of card `number`: cost_for of its name. */
    function CostOf(number: nat): int
      reads this`cards
      requires number in cards
    {
      Manifest.CostFor(costs, cards[number].name)
    }

    /** `c` is the (number, name, rarity) of a not-yet-voted card. */
    predicate IsUnvotedCard(c: CardFileName.Card)
      reads this`cards
    {
      c.number in cards && !cards[c.number].voted &&
      c.name == cards[c.number].name && c.rarity == cards[c.number].rarity
    }

    /**
     * `SELECT ... WHERE voted = 0 ORDER BY RANDOM() LIMIT limit`: distinct
     * unvoted cards in an order left open, as many as the limit allows (all of
     * them for a negative limit).
     */
    method NextGroup(limit: int) returns (group: seq<CardFileName.Card>)
      ensures forall i :: 0 <= i < |group| ==> IsUnvotedCard(group[i])
      ensures forall i, j :: 0 <= i < j < |group| ==> group[i].number != group[j].number
      ensures |group| == if 0 <= limit < |Unvoted()| then limit else |Unvoted()|
    {
      var order := Shuffle(Unvoted());
      var k := if 0 <= limit < |order| then limit else |order|;
      assert forall i :: 0 <= i < k ==> order[i] in cards;
      group := seq(k, i requires 0 <= i < k && order[i] in cards reads this =>
        CardFileName.Card(order[i], cards[order[i]].name, cards[order[i]].rarity));
    }

    /** get_next_group as db.py writes it: the limit is the round size. */
    method GetNextGroup() returns (group: seq<CardFileName.Card>)
      ensures forall i :: 0 <= i < |group| ==> IsUnvotedCard(group[i])
      ensures forall i, j :: 0 <= i < j < |group| ==> group[i].number != group[j].number
      ensures |group| == if 0 <= roundSize < |Unvoted()| then roundSize else |Unvoted()|
    {
      group := NextGroup(roundSize);
    }

    /** get_name: the name of card `number`; None where the lookup finds no row and the source raises. */
    function GetName(number: nat): (r: Option<string>)
      reads this`cards
      ensures r.Some? <==> number in cards
      ensures r.Some? ==> r.value == cards[number].name
    {
      NameIn(cards, number)
    }

    /** The image file name get_img opens; None where the lookup finds no row. */
    function ImageName(number: nat): (r: Option<string>)
      reads this`cards
      ensures r.Some? <==> number in cards
    {
      if number in cards then Some(CardFileName.Format(CardFileName.Card(number, cards[number].name, cards[number].rarity)))
      else None
    }

    /** The image name parses back to the card's own number, name and rarity. */
    lemma ImageNameParses(number: nat)
      requires number in cards
      requires CardFileName.NoNewline(cards[number].name) && CardFileName.NoNewline(cards[number].rarity)
      requires CardFileName.NoOpenBracket(cards[number].rarity)
      ensures CardFileName.Parse(ImageName(number).value) ==
        Some(CardFileName.Card(number, cards[number].name, cards[number].rarity))
    {
      CardFileName.ParseFormat(CardFileName.Card(number, cards[number].name, cards[number].rarity));
    }

    function GetMessages(channel: int): (r: seq<Pending>)
      reads this`messages
      ensures forall p :: p in r <==> MessageRow(channel, p.id, p.number) in messages
    {
      MessagesOf(messages, channel)
    }

    /** insert_messages: the messages table has no key, so every row is appended. */
    method InsertMessages(rows: seq<MessageRow>)
      modifies this
      ensures messages == old(messages) + rows
      ensures cards == old(cards) && votes == old(votes)
      ensures summaries == old(summaries) && forumChan == old(forumChan)
    {
      messages := messages + rows;
    }

    /** add_scores: one votes row per score bucket, replacing an existing row with the same key. */
    method AddScores(number: nat, scores: seq<int>)
      modifies this
      ensures votes == WithScores(old(votes), number, scores)
      ensures cards == old(cards) && messages == old(messages)
      ensures summaries == old(summaries) && forumChan == old(forumChan)
    {
      votes := WithScores(votes, number, scores);
    }

    method MarkHasVoted(number: nat)
      modifies this
      ensures cards == MarkVoted(old(cards), number)
      ensures votes == old(votes) && messages == old(messages)
      ensures summaries == old(summaries) && forumChan == old(forumChan)
    {
      cards := MarkVoted(cards, number);
    }

    method RemoveMessage(id: int)
      modifies this
      ensures messages == WithoutMessage(old(messages), id)
      ensures cards == old(cards) && votes == old(votes)
      ensures summaries == old(summaries) && forumChan == old(forumChan)
    {
      messages := WithoutMessage(messages, id);
    }

    method SetForumChan(channel: int)
      modifies this
      ensures forumChan == Some(channel)
      ensures cards == old(cards) && votes == old(votes)
      ensures messages == old(messages) && summaries == old(summaries)
    {
      forumChan := Some(channel);
    }

    function GetForumChan(): Option<int>
      reads this`forumChan
    {
      forumChan
    }

    function GetSummaries(channel: int): (r: seq<int>)
      reads this`summaries
      ensures forall id :: id in r <==> SummaryRow(channel, id) in summaries
    {
      SummaryIds(summaries, channel)
    }

    method RemoveSummary(id: int)
      modifies this
      ensures summaries == WithoutSummary(old(summaries), id)
      ensures cards == old(cards) && votes == old(votes)
      ensures messages == old(messages) && forumChan == old(forumChan)
    {
      summaries := WithoutSummary(summaries, id);
    }

    method InsertSummaries(rows: seq<SummaryRow>)
      modifies this
      ensures summaries == old(summaries) + rows
      ensures cards == old(cards) && votes == old(votes)
      ensures messages == old(messages) && forumChan == old(forumChan)
    {
      summaries := summaries + rows;
    }

    /** `cost` is the lowest cost among the not-yet-voted cards. */
    ghost predicate IsLowestCost(cost: int)
      reads this`cards
    {
      (exists n :: n in Unvoted() && CostOf(n) == cost) &&
      forall n :: n in Unvoted() ==> cost <= CostOf(n)
    }

    /** get_lowest_cost: the lowest cost among the not-yet-voted cards, None when none remain. */
    method GetLowestCost() returns (r: Option<int>)
      ensures r.None? <==> Unvoted() == {}
      ensures r.Some? ==> IsLowestCost(r.value)
    {
      var all := Unvoted();
      var left := all;
      ghost var cheapest: nat := 0;
      r := None;
      while left != {}
        invariant left <= all
        invariant r.None? ==> left == all
        invariant r.Some? ==> cheapest in all && CostOf(cheapest) == r.value
        invariant r.Some? ==> forall n :: n in all - left ==> r.value <= CostOf(n)
        decreases |left|
      {
        var n :| n in left;
        var c := CostOf(n);
        if r.None? || c < r.value {
          r := Some(c);
          cheapest := n;
        }
        left := left - {n};
      }
    }

    /** number_for_cost: how many not-yet-voted cards have the cost. */
    function NumberForCost(cost: int): (r: nat)
      reads this`cards
      ensures r <= |Unvoted()|
      ensures r == 0 <==> forall n :: n in Unvoted() ==> CostOf(n) != cost
    {
      var matching := set n | n in Unvoted() && CostOf(n) == cost;
      SubsetSize(matching, Unvoted());
      assert forall n :: n in Unvoted() && CostOf(n) == cost ==> n in matching;
      |matching|
    }

    /** The lowest cost always has some card left at it. */
    lemma LowestCostRemains(cost: int)
      requires IsLowestCost(cost)
      ensures NumberForCost(cost) >= 1
    {
    }
  }
}
