/**
 * The card cost tiers and the manifest generator of manifest_gen.py.
 *
 * Each tier is a triple-quoted block of card names, one per line, and the tier
 * lists are those blocks split on newlines. A block is modelled as the join of
 * its lines with newlines; block two opens with a newline, so its first line
 * is empty. cost_for is the first-match search over the six lists, and the
 * manifest maps each card number to the name, rarity and cost of the last file
 * name with that number.
 */
module Manifest {
  import opened Wrappers
  import CardFileName
  import opened TierLists

  /** Python's str.split("\n"): the pieces between newlines, empty ones included. */
  function Split(s: string): (lines: seq<string>)
    ensures |lines| >= 1
  {
    if s == [] then [[]]
    else
      var t := Split(s[1..]);
      if s[0] == '\n' then [[]] + t else [[s[0]] + t[0]] + t[1..]
  }

  /** "\n".join(lines): the inverse of Split. */
  function Join(lines: seq<string>): string
    requires |lines| >= 1
  {
    if |lines| == 1 then lines[0] else lines[0] + "\n" + Join(lines[1..])
  }

  /** No piece of a split holds a newline. */
  lemma {:induction false} SplitHasNoNewline(s: string)
    ensures forall i :: 0 <= i < |Split(s)| ==> '\n' !in Split(s)[i]
  {
    if s != [] {
      SplitHasNoNewline(s[1..]);
      var t := Split(s[1..]);
      if s[0] != '\n' {
        assert forall i :: 0 < i < |Split(s)| ==> Split(s)[i] == t[i];
      }
    }
  }

  /** Splitting, then joining back, gives the text back. */
  lemma {:induction false} JoinSplit(s: string)
    ensures Join(Split(s)) == s
  {
    if s != [] {
      var t := Split(s[1..]);
      JoinSplit(s[1..]);
      if s[0] == '\n' {
        assert Split(s)[1..] == t;
      } else {
        var l := Split(s);
        assert l[0] == [s[0]] + t[0] && l[1..] == t[1..];
        if |t| > 1 {
          assert Join(t) == t[0] + "\n" + Join(t[1..]);
        }
      }
    }
  }

  /** A line without newlines is the first piece of the text it starts. */
  lemma {:induction false} SplitPrefix(a: string, rest: string)
    requires '\n' !in a
    ensures Split(a + rest) == [a + Split(rest)[0]] + Split(rest)[1..]
  {
    if a != [] {
      SplitPrefix(a[1..], rest);
      assert (a + rest)[1..] == a[1..] + rest;
      assert [a[0]] + (a[1..] + Split(rest)[0]) == a + Split(rest)[0];
    } else {
      var l := Split(rest);
      assert a + rest == rest && a + l[0] == l[0];
      assert l == [l[0]] + l[1..];
    }
  }

  /** Joining lines without newlines, then splitting, gives the lines back. */
  lemma {:induction false} SplitJoin(lines: seq<string>)
    requires |lines| >= 1
    requires forall i :: 0 <= i < |lines| ==> '\n' !in lines[i]
    ensures Split(Join(lines)) == lines
  {
    if |lines| == 1 {
      SplitPrefix(lines[0], []);
      assert lines[0] + [] == lines[0];
    } else {
      var j := Join(lines[1..]);
      SplitJoin(lines[1..]);
      SplitPrefix(lines[0], "\n" + j);
      assert ("\n" + j)[0] == '\n' && ("\n" + j)[1..] == j;
      assert Split("\n" + j) == [[]] + lines[1..];
      assert lines[0] + "\n" + j == lines[0] + ("\n" + j);
      assert lines[0] + [] == lines[0];
      assert [lines[0]] + lines[1..] == lines;
    }
  }

  /** cost_for's inner loop over one list, and the outer loop from list i on: the first list holding the name. */
  function TierFrom(tiers: seq<seq<string>>, name: string, i: nat): (r: int)
    requires i <= |tiers|
    ensures r == -1 <==> forall j :: i <= j < |tiers| ==> name !in tiers[j]
    ensures r != -1 ==> i < r <= |tiers| && name in tiers[r - 1]
    ensures r != -1 ==> forall j :: i <= j < r - 1 ==> name !in tiers[j]
    decreases |tiers| - i
  {
    if i == |tiers| then -1
    else if name in tiers[i] then i + 1
    else TierFrom(tiers, name, i + 1)
  }

  /**
   * cost_for over the tier lists `costs`: one plus the index of the first list
   * holding exactly this name, so a name listed twice gets the lower cost; -1
   * when no list holds it.
   */
  function CostFor(costs: seq<seq<string>>, name: string): (r: int)
    ensures r == -1 <==> forall j :: 0 <= j < |costs| ==> name !in costs[j]
    ensures r == -1 || 1 <= r <= |costs|
    ensures r != -1 ==> name in costs[r - 1] && forall j :: 0 <= j < r - 1 ==> name !in costs[j]
  {
    TierFrom(costs, name, 0)
  }

  /** Block two opens with a newline, so its tier list starts with the empty name. */
  lemma TierTwoStartsEmpty()
    ensures |Costs| == 6 && Costs[1][0] == ""
    ensures Join(Costs[1])[0] == '\n'
  {
    assert Join(Costs[1]) == "" + "\n" + Join(Costs[1][1..]);
  }

  /** Six tier lists: every cost is 1 to 6, or -1. */
  lemma CostForRange(name: string)
    ensures var r := CostFor(Costs, name); r == -1 || 1 <= r <= 6
  {
  }

  /** The first name of tier one costs 1. */
  lemma SplatBombCostsOne()
    ensures CostFor(Costs, "Splat Bomb") == 1
  {
    assert "Splat Bomb" == Costs[0][0];
  }

  /** No name of tier one is empty, so the empty name costs 2. */
  lemma EmptyNameCostsTwo()
    ensures CostFor(Costs, "") == 2
  {
    assert "" == Costs[1][0];
    assert forall i :: 0 <= i < |OneLines| ==> |OneLines[i]| > 0;
  }

  /** A manifest value: the name, rarity and cost of a card. */
  datatype Entry = Entry(name: string, rarity: string, cost: int)

  /** The entry main writes for a parsed file name. */
  function EntryOf(costs: seq<seq<string>>, c: CardFileName.Card): Entry
  {
    Entry(c.name, c.rarity, CostFor(costs, c.name))
  }

  /** The manifest main builds from the matching file names, in walk order: one entry per number, written by the last card with it. */
  function ManifestOf(costs: seq<seq<string>>, cards: seq<CardFileName.Card>): map<nat, Entry>
  {
    if cards == [] then map[]
    else
      var c := cards[|cards| - 1];
      ManifestOf(costs, cards[..|cards| - 1])[c.number := EntryOf(costs, c)]
  }

  /** One more walked file name either adds or overwrites the entry of its card, or changes nothing. */
  lemma ManifestStep(costs: seq<seq<string>>, files: seq<string>, i: nat)
    requires i < |files|
    ensures var before := ManifestOf(costs, CardFileName.Matches(files[..i]));
      ManifestOf(costs, CardFileName.Matches(files[..i + 1])) ==
        match CardFileName.Parse(files[i])
        case None => before
        case Some(c) => before[c.number := EntryOf(costs, c)]
  {
    assert files[..i + 1] == files[..i] + [files[i]];
    CardFileName.MatchesSnoc(files[..i], files[i]);
    var cards := CardFileName.Matches(files[..i]);
    match CardFileName.Parse(files[i])
    case None =>
    case Some(c) =>
      assert (cards + [c])[..|cards|] == cards;
  }

  /**
   * The loop of main over the walked file names, with cost_for over `costs`
   * (Costs in the program), without the renames and the JSON output.
   */
  method BuildManifest(costs: seq<seq<string>>, files: seq<string>) returns (manifest: map<nat, Entry>)
    ensures manifest == ManifestOf(costs, CardFileName.Matches(files))
  {
    manifest := map[];
    for i := 0 to |files|
      invariant manifest == ManifestOf(costs, CardFileName.Matches(files[..i]))
    {
      ManifestStep(costs, files, i);
      var result := CardFileName.Parse(files[i]);
      if result.Some? {
        var c := result.value;
        manifest := manifest[c.number := Entry(c.name, c.rarity, CostFor(costs, c.name))];
      }
    }
    assert files[..|files|] == files;
  }

  /** The manifest is keyed by exactly the numbers of the matching file names. */
  lemma {:induction false} ManifestKeys(costs: seq<seq<string>>, cards: seq<CardFileName.Card>, n: nat)
    ensures n in ManifestOf(costs, cards) <==> exists i :: 0 <= i < |cards| && cards[i].number == n
  {
    if cards != [] {
      var init := cards[..|cards| - 1];
      ManifestKeys(costs, init, n);
      assert forall i :: 0 <= i < |init| ==> init[i] == cards[i];
    }
  }

  /** A later card with the same number overwrites: the entry comes from the last card with that number. */
  lemma {:induction false} ManifestLastWins(costs: seq<seq<string>>, cards: seq<CardFileName.Card>, i: nat)
    requires i < |cards|
    requires forall j :: i < j < |cards| ==> cards[j].number != cards[i].number
    ensures cards[i].number in ManifestOf(costs, cards)
    ensures ManifestOf(costs, cards)[cards[i].number] == EntryOf(costs, cards[i])
  {
    var init := cards[..|cards| - 1];
    if i < |cards| - 1 {
      assert init[i] == cards[i];
      assert forall j :: i < j < |init| ==> init[j] == cards[j];
      ManifestLastWins(costs, init, i);
    }
  }
}
