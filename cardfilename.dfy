/**
 * The card image file name convention shared by the catalog seeding in db.py,
 * the manifest generator and the image lookup of db.py:
 *
 *     No. <number> <name> (<rarity>).jpg
 *
 * Parse is the pattern `No. (\d+) (.*) \((.*)\).jpg` under Python's `re.match`:
 * anchored at the start only, with the two unescaped dots matching any
 * character but a newline, and with the greedy backtracking order of the
 * regular-expression engine (the name group takes the longest span that still
 * lets the rest match, then the rarity group takes the longest span). Format is
 * the f-string of db.py:62.
 */
module CardFileName {
  import opened Wrappers

  /** The (number, name, rarity) groups a matching file name yields. */
  datatype Card = Card(number: nat, name: string, rarity: string)

  predicate IsDigit(c: char) { '0' <= c <= '9' }

  predicate AllDigits(s: string)
  {
    forall i :: 0 <= i < |s| ==> IsDigit(s[i])
  }

  predicate NoNewline(s: string)
  {
    forall i :: 0 <= i < |s| ==> s[i] != '\n'
  }

  /** `s` holds no ` (`, the text the name group would end at. */
  predicate NoOpenBracket(s: string)
  {
    forall i :: 0 <= i < |s| - 1 ==> !(s[i] == ' ' && s[i + 1] == '(')
  }

  /** int() of a string of decimal digits. */
  function DecimalValue(s: string): nat
    requires AllDigits(s)
  {
    if s == [] then 0 else 10 * DecimalValue(s[..|s| - 1]) + (s[|s| - 1] as int - '0' as int)
  }

  /** str() of a natural number, which int() reads back. */
  function Decimal(n: nat): (s: string)
    ensures |s| > 0 && AllDigits(s)
    ensures DecimalValue(s) == n
  {
    var last := ['0' + ((n % 10) as char)];
    if n < 10 then last
    else
      var init := Decimal(n / 10);
      assert (init + last)[..|init + last| - 1] == init;
      init + last
  }

  /** The length of the run of digits in `f` from index `i`: what the greedy `\d+` takes. */
  function DigitRun(f: string, i: nat): (k: nat)
    requires i <= |f|
    ensures i + k <= |f|
    ensures forall j :: i <= j < i + k ==> IsDigit(f[j])
    ensures i + k == |f| || !IsDigit(f[i + k])
    decreases |f| - i
  {
    if i < |f| && IsDigit(f[i]) then 1 + DigitRun(f, i + 1) else 0
  }

  /** `\).jpg` matches `u` at index q. */
  predicate ClosesAt(u: string, q: nat)
  {
    q + 5 <= |u| && u[q] == ')' && u[q + 1] != '\n' && u[q + 2..q + 5] == "jpg"
  }

  /** The rarity group `(.*)` may end at q: no newline before it and the closing part follows. */
  predicate RarityEnd(u: string, q: nat)
  {
    q <= |u| && NoNewline(u[..q]) && ClosesAt(u, q)
  }

  /** The greedy rarity group: the largest end at most `hi` that lets the pattern finish. */
  function LastRarityEnd(u: string, hi: nat): (r: Option<nat>)
    ensures r.Some? ==> r.value <= hi && RarityEnd(u, r.value)
    ensures r.Some? ==> forall q :: r.value < q <= hi ==> !RarityEnd(u, q)
    ensures r.None? ==> forall q :: 0 <= q <= hi ==> !RarityEnd(u, q)
  {
    if RarityEnd(u, hi) then Some(hi)
    else if hi == 0 then None
    else LastRarityEnd(u, hi - 1)
  }

  /** ` (` starts at index p of `s`. */
  predicate OpensAt(s: string, p: nat)
  {
    p + 2 <= |s| && s[p] == ' ' && s[p + 1] == '('
  }

  /** The name group `(.*)` may end at p: no newline before it, ` (` follows, and a rarity group fits after that. */
  predicate NameEnd(rest: string, p: nat)
  {
    p + 2 <= |rest| && NoNewline(rest[..p]) && OpensAt(rest, p)
    && LastRarityEnd(rest[p + 2..], |rest| - (p + 2)).Some?
  }

  /** The greedy name group: the largest end at most `hi` after which the rest of the pattern matches. */
  function LastNameEnd(rest: string, hi: nat): (r: Option<nat>)
    ensures r.Some? ==> r.value <= hi && NameEnd(rest, r.value)
    ensures r.Some? ==> forall p :: r.value < p <= hi ==> !NameEnd(rest, p)
    ensures r.None? ==> forall p :: 0 <= p <= hi ==> !NameEnd(rest, p)
  {
    if NameEnd(rest, hi) then Some(hi)
    else if hi == 0 then None
    else LastNameEnd(rest, hi - 1)
  }

  /** `No. ` with its unescaped dot: the first four characters of any match. */
  predicate HasPrefix(f: string)
  {
    |f| >= 4 && f[0] == 'N' && f[1] == 'o' && f[2] != '\n' && f[3] == ' '
  }

  /** The `(.*) \((.*)\).jpg` tail of the pattern on the text after the number: the name and rarity groups. */
  function Groups(rest: string): Option<(string, string)>
  {
    match LastNameEnd(rest, |rest|)
    case None => None
    case Some(p) =>
      var u := rest[p + 2..];
      Some((rest[..p], u[..LastRarityEnd(u, |u|).value]))
  }

  /** prog.match(fname) followed by the three group reads and int() of the first. */
  function Parse(f: string): Option<Card>
  {
    if !HasPrefix(f) then None
    else
      var k := DigitRun(f, 4);
      if k == 0 || 4 + k == |f| || f[4 + k] != ' ' then None
      else
        match Groups(f[5 + k..])
        case None => None
        case Some(g) => Some(Card(DecimalValue(f[4..4 + k]), g.0, g.1))
  }

  /** db.py:62: the image file name of a card row. */
  function Format(c: Card): string
  {
    "No. " + Decimal(c.number) + " " + c.name + " (" + c.rarity + ").jpg"
  }

  /** What the tail of the pattern matched: the groups, the bracket and `.jpg` with its unescaped dot. */
  lemma GroupsSound(rest: string)
    requires Groups(rest).Some?
    ensures var (name, rarity) := Groups(rest).value;
      var close := |name| + 2 + |rarity| + 1;
      && close + 4 <= |rest| && rest[close] != '\n'
      && NoNewline(name) && NoNewline(rarity)
      && name + " (" + rarity + ")" + [rest[close]] + "jpg" == rest[..close + 4]
  {
    var p := LastNameEnd(rest, |rest|).value;
    var u := rest[p + 2..];
    var q := LastRarityEnd(u, |u|).value;
    var name, rarity := rest[..p], u[..q];
    assert Groups(rest).value == (name, rarity);
    assert rest[p..p + 2] == " (" by {
      assert OpensAt(rest, p);
    }
    var close := p + 2 + q + 1;
    assert rest[..close + 4] == rest[..p] + rest[p..p + 2] + u[..q] + [u[q]] + [u[q + 1]] + u[q + 2..q + 5];
  }

  /**
   * What a successful parse means: the file name starts with `No`, any
   * character but a newline and a space, then a non-empty run of digits whose
   * decimal value is the number, then a space and a tail whose groups
   * (GroupsSound) are the name and the rarity.
   */
  lemma ParseSound(f: string)
    requires Parse(f).Some?
    ensures var c := Parse(f).value;
      var k := DigitRun(f, 4);
      && k > 0 && f[..4] == "No" + [f[2]] + " " && f[2] != '\n'
      && AllDigits(f[4..4 + k]) && c.number == DecimalValue(f[4..4 + k])
      && f[4 + k] == ' ' && Groups(f[5 + k..]) == Some((c.name, c.rarity))
  {
    assert f[..4] == "No" + [f[2]] + " ";
  }

  /** The greedy digit run stops exactly at the first non-digit. */
  lemma {:induction false} DigitRunExact(f: string, i: nat, k: nat)
    requires i + k < |f|
    requires forall j :: i <= j < i + k ==> IsDigit(f[j])
    requires !IsDigit(f[i + k])
    ensures DigitRun(f, i) == k
    decreases k
  {
    if k > 0 {
      DigitRunExact(f, i + 1, k - 1);
    }
  }

  /** After a formatted rarity, the closing `).jpg` is the last place the rarity group can end. */
  lemma FormattedRarityEnd(rarity: string, trailer: string)
    requires NoNewline(rarity)
    requires ')' !in trailer
    ensures var u := rarity + ").jpg" + trailer; LastRarityEnd(u, |u|) == Some(|rarity|)
  {
    var u := rarity + ").jpg" + trailer;
    var n := |rarity|;
    var after := ".jpg" + trailer;
    assert u == rarity + ")" + after;
    assert u[..n] == rarity;
    assert u[n + 2..n + 5] == "jpg";
    assert RarityEnd(u, n);
    assert ')' !in after;
    forall q | n < q <= |u| ensures !ClosesAt(u, q) {
      if q < |u| {
        assert u[q] == after[q - n - 1];
      }
    }
  }

  /** Past the ` (` that opens the rarity, a formatted name holds no other ` (`. */
  lemma FormattedOpensOnce(name: string, rarity: string, trailer: string)
    requires NoOpenBracket(rarity) && '(' !in trailer
    ensures var rest := name + " (" + rarity + ").jpg" + trailer;
      forall p :: |name| < p ==> !OpensAt(rest, p)
  {
    var tail := ").jpg" + trailer;
    var w := rarity + tail;
    var rest := name + " (" + w;
    assert rest == name + " (" + rarity + ").jpg" + trailer;
    var l := |name|;
    assert '(' !in tail;
    forall p: nat | l < p && p + 2 <= |rest| ensures !OpensAt(rest, p) {
      if p == l + 1 {
        assert rest[p] == '(';
      } else {
        var j := p - l - 2;
        assert rest[p] == w[j] && rest[p + 1] == w[j + 1];
        if j + 1 < |rarity| {
          assert w[j] == rarity[j] && w[j + 1] == rarity[j + 1];
        } else {
          assert w[j + 1] == tail[j + 1 - |rarity|];
        }
      }
    }
  }

  /** In a formatted name whose rarity holds no ` (`, the name group ends right before the ` (` that opens the rarity. */
  lemma FormattedNameEnd(name: string, rarity: string, trailer: string)
    requires NoNewline(name) && NoNewline(rarity) && NoOpenBracket(rarity)
    requires '(' !in trailer && ')' !in trailer
    ensures var rest := name + " (" + rarity + ").jpg" + trailer;
      LastNameEnd(rest, |rest|) == Some(|name|)
  {
    var w := rarity + ").jpg" + trailer;
    var rest := name + " (" + w;
    assert rest == name + " (" + rarity + ").jpg" + trailer;
    var l := |name|;
    assert rest[..l] == name && rest[l] == ' ' && rest[l + 1] == '(';
    assert rest[l + 2..] == w;
    FormattedRarityEnd(rarity, trailer);
    assert NameEnd(rest, l);
    FormattedOpensOnce(name, rarity, trailer);
  }

  /**
   * `match` is anchored at the start only: a formatted name followed by any
   * text free of parentheses parses to the row it was formatted from, as long
   * as neither field spans a newline and the rarity holds no ` (`; the name may
   * hold parentheses, because the name group is greedy.
   */
  lemma ParseFormatTrailer(c: Card, trailer: string)
    requires NoNewline(c.name) && NoNewline(c.rarity) && NoOpenBracket(c.rarity)
    requires '(' !in trailer && ')' !in trailer
    ensures Parse(Format(c) + trailer) == Some(c)
  {
    var d := Decimal(c.number);
    var rest := c.name + " (" + c.rarity + ").jpg" + trailer;
    assert Format(c) + trailer == "No. " + d + " " + rest;
    ParseNumbered(d, rest);
    GroupsFormatted(c.name, c.rarity, trailer);
  }

  /** After `No. `, a digit run and a space, the pattern goes on with the groups. */
  lemma ParseNumbered(d: string, rest: string)
    requires |d| > 0 && AllDigits(d)
    ensures Parse("No. " + d + " " + rest) ==
      match Groups(rest)
      case None => None
      case Some(g) => Some(Card(DecimalValue(d), g.0, g.1))
  {
    var f := "No. " + d + " " + rest;
    var k := |d|;
    assert f[4..4 + k] == d;
    forall j | 4 <= j < 4 + k ensures IsDigit(f[j]) {
      assert f[j] == d[j - 4];
    }
    assert f[4 + k] == ' ';
    DigitRunExact(f, 4, k);
    assert f[5 + k..] == rest;
    assert HasPrefix(f);
  }

  /** The groups of a formatted tail are the name and rarity it was formatted from. */
  lemma GroupsFormatted(name: string, rarity: string, trailer: string)
    requires NoNewline(name) && NoNewline(rarity) && NoOpenBracket(rarity)
    requires '(' !in trailer && ')' !in trailer
    ensures Groups(name + " (" + rarity + ").jpg" + trailer) == Some((name, rarity))
  {
    var rest := name + " (" + rarity + ").jpg" + trailer;
    FormattedNameEnd(name, rarity, trailer);
    var l := |name|;
    assert rest[..l] == name;
    var u := rest[l + 2..];
    assert u == rarity + ").jpg" + trailer;
    FormattedRarityEnd(rarity, trailer);
    assert u[..|rarity|] == rarity;
  }

  /** The round trip between db.py:62 and the pattern of db.py:33. */
  lemma ParseFormat(c: Card)
    requires NoNewline(c.name) && NoNewline(c.rarity) && NoOpenBracket(c.rarity)
    ensures Parse(Format(c)) == Some(c)
  {
    ParseFormatTrailer(c, []);
    assert Format(c) + [] == Format(c);
  }

  /** A rarity holding ` (` breaks the round trip: the greedy name group swallows part of it. */
  lemma RarityWithParenthesisDoesNotRoundTrip()
    ensures Parse(Format(Card(1, "A", " ("))) != Some(Card(1, "A", " ("))
  {
    var name, u := "A (", ").jpg";
    var rest := name + " (" + u;
    assert Decimal(1) == "1";
    assert Format(Card(1, "A", " (")) == "No. " + "1" + " " + rest;
    ParseNumbered("1", rest);
    assert u[2..5] == "jpg";
    assert RarityEnd(u, 0);
    assert rest[..3] == name && rest[3] == ' ' && rest[4] == '(' && rest[5..] == u;
    assert NoNewline(name);
    assert NameEnd(rest, 3);
    var p := LastNameEnd(rest, |rest|).value;
    assert |rest[..p]| >= 3;
  }

  /** A ` (` at index i of the rarity is a place the name group could end. */
  lemma OpenBracketIsNameEnd(name: string, rarity: string, i: nat)
    requires NoNewline(name) && NoNewline(rarity)
    requires i < |rarity| - 1 && rarity[i] == ' ' && rarity[i + 1] == '('
    ensures NameEnd(name + " (" + rarity + ").jpg", |name| + 2 + i)
  {
    var rest := name + " (" + rarity + ").jpg";
    var p := |name| + 2 + i;
    assert OpensAt(rest, p) by {
      assert rest[p] == rarity[i] && rest[p + 1] == rarity[i + 1];
    }
    assert NoNewline(rest[..p]) by {
      assert rest[..p] == name + " (" + rarity[..i];
    }
    var u := rest[p + 2..];
    var q := |rarity| - i - 2;
    assert RarityEnd(u, q) by {
      assert u == rarity[i + 2..] + ").jpg";
      assert u[..q] == rarity[i + 2..];
      assert u[q + 2..q + 5] == "jpg";
    }
  }

  /**
   * The converse of ParseFormat: once the rarity holds a ` (`, the greedy name
   * group runs on into it, so the file name does not give the card back.
   */
  lemma OpenBracketBreaksRoundTrip(c: Card)
    requires NoNewline(c.name) && NoNewline(c.rarity) && !NoOpenBracket(c.rarity)
    ensures Parse(Format(c)) != Some(c)
  {
    var i :| 0 <= i < |c.rarity| - 1 && c.rarity[i] == ' ' && c.rarity[i + 1] == '(';
    var d := Decimal(c.number);
    var rest := c.name + " (" + c.rarity + ").jpg";
    assert Format(c) == "No. " + d + " " + rest;
    ParseNumbered(d, rest);
    OpenBracketIsNameEnd(c.name, c.rarity, i);
    var p' := LastNameEnd(rest, |rest|).value;
    assert |rest[..p']| != |c.name|;
  }

  /** What a scan of the file names collects, in order: the groups of every name that matches. */
  function Matches(files: seq<string>): (cards: seq<Card>)
    ensures |cards| <= |files|
  {
    if files == [] then []
    else
      var init := Matches(files[..|files| - 1]);
      match Parse(files[|files| - 1])
      case None => init
      case Some(c) => init + [c]
  }

  /** One more file name adds its groups, if it matches, at the end. */
  lemma MatchesSnoc(files: seq<string>, f: string)
    ensures Matches(files + [f]) == Matches(files) + (if Parse(f).Some? then [Parse(f).value] else [])
  {
    assert (files + [f])[..|files|] == files;
  }

  /** A card is collected exactly when some file name parses to it; non-matching names are skipped. */
  lemma {:induction false} MatchesMembership(files: seq<string>, c: Card)
    ensures c in Matches(files) <==> exists i :: 0 <= i < |files| && Parse(files[i]) == Some(c)
  {
    if files != [] {
      var last := |files| - 1;
      var init := files[..last];
      var f := files[last];
      MatchesMembership(init, c);
      assert files == init + [f];
      MatchesSnoc(init, f);
      var tail := if Parse(f).Some? then [Parse(f).value] else [];
      assert c in Matches(files) <==> c in Matches(init) || c in tail;
      assert c in tail <==> Parse(f) == Some(c);
      if c in Matches(init) {
        var i :| 0 <= i < |init| && Parse(init[i]) == Some(c);
        assert files[i] == init[i];
      }
      if exists i :: 0 <= i < |files| && Parse(files[i]) == Some(c) {
        var i :| 0 <= i < |files| && Parse(files[i]) == Some(c);
        if i < last {
          assert files[i] == init[i];
        }
      }
    }
  }
}