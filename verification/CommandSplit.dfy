/** Taking the commands of a line one by one (get_request, src/cmds/qmgr.c:3426-3504). */
module CommandSplit {
  import opened CText

  // ----- where a command ends -----

  /** The quote that is open in front of position i of s, NUL when none is. */
  function Quote(s: string, i: nat): char
    requires i <= |s|
  {
    if i == 0 then NUL
    else
      var q, c := Quote(s, i - 1), s[i - 1];
      if q != NUL then (if c == q then NUL else q) else if IsQuote(c) then c else NUL
  }

  /** A command ends at i: at a semicolon, or where a comment begins, outside quotes. */
  predicate CutsAt(s: string, i: nat) {
    i < |s| && Quote(s, i) == NUL && (s[i] == ';' || (s[i] == '#' && (i == 0 || IsSpace(s[i - 1]))))
  }

  /** The first command of s is s[..i]. */
  predicate FirstCut(s: string, i: nat) {
    i <= |s| && (forall j :: 0 <= j < i ==> !CutsAt(s, j)) && (i == |s| || CutsAt(s, i))
  }

  lemma {:induction false} FirstCutUnique(s: string, i: nat, j: nat)
    requires FirstCut(s, i) && FirstCut(s, j)
    ensures i == j
  {
  }

  function CutFrom(s: string, i: nat): (k: nat)
    requires i <= |s| && forall j :: 0 <= j < i ==> !CutsAt(s, j)
    ensures FirstCut(s, k)
    decreases |s| - i
  {
    if i == |s| || CutsAt(s, i) then i else CutFrom(s, i + 1)
  }

  function Cut(s: string): (k: nat)
    ensures FirstCut(s, k)
  {
    CutFrom(s, 0)
  }

  /** What is left of the line behind its first command. */
  function Remainder(s: string): (r: string)
    ensures s != "" ==> |r| < |s|
  {
    var c := Cut(s);
    if c < |s| && s[c] == ';' then SkipSpace(s[c + 1..]) else ""
  }

  /** All commands of a line. */
  function Commands(s: string): (cs: seq<string>)
    ensures cs != []
    decreases |s|
  {
    [s[..Cut(s)]] + if s == "" || Remainder(s) == "" then [] else Commands(Remainder(s))
  }

  // ----- get_request -----

  lemma {:induction false} CommandsUnfold(s: string)
    ensures Commands(s) == [s[..Cut(s)]] + if s == "" || Remainder(s) == "" then [] else Commands(Remainder(s))
  {
  }

  lemma {:induction false} OneMore(done: seq<string>, c: string, left: seq<string>)
    ensures done + ([c] + left) == done + [c] + left
  {
  }

  class RequestReader {
    /** The static buffer, up to its terminator. */
    var line: string
    var empty: bool

    constructor (input: string)
      ensures line == input && empty == (input == "")
    {
      line, empty := input, input == "";
    }

    /** Copies one command out of the buffer and moves the rest of the line up. */
    method GetRequest() returns (request: string)
      requires !empty && line != ""
      modifies this
      ensures request == old(line)[..Cut(old(line))]
      ensures line == Remainder(old(line)) && empty == (line == "")
      ensures |line| < |old(line)|
    {
      ghost var s := line;
      var lp := CopyCommand(line);
      FirstCutUnique(line, lp, Cut(line));
      request := line[..lp];
      if lp < |line| && line[lp] == ';' {
        lp := lp + 1;
        while lp < |line| && IsSpace(line[lp])
          invariant lp <= |line| == |s| && line == s
          invariant SkipSpace(s[Cut(s) + 1..]) == SkipSpace(s[lp..])
        {
          assert s[lp..][1..] == s[lp + 1..];
          lp := lp + 1;
        }
        assert lp == |line| ==> s[lp..] == "";
        assert lp < |line| ==> s[lp..][0] == s[lp];
        line := line[lp..];
        empty := line == "";
      } else {
        line, empty := "", true;
      }
    }

    /** Commands are taken until the buffer is empty. */
    method TakeAll() returns (requests: seq<string>)
      requires !empty && line != ""
      modifies this
      ensures requests == Commands(old(line)) && empty && line == ""
    {
      hide Commands;
      requests := [];
      ghost var s, left := line, Commands(line);
      while !empty
        invariant empty == (line == "") && left == if empty then [] else Commands(line)
        invariant requests + left == Commands(s)
        decreases |line|
      {
        CommandsUnfold(line);
        ghost var was := left;
        var request := GetRequest();
        left := if empty then [] else Commands(line);
        assert was == [request] + left;
        OneMore(requests, request, left);
        requests := requests + [request];
      }
    }
  }

  /** The copying loop, up to the end of the command. */
  method CopyCommand(line: string) returns (lp: nat)
    ensures FirstCut(line, lp)
  {
    lp := 0;
    while lp < |line|
      invariant lp <= |line| && Quote(line, lp) == NUL
      invariant forall j :: 0 <= j < lp ==> !CutsAt(line, j)
    {
      if line[lp] == ';' {
        return;
      } else if IsQuote(line[lp]) {
        lp := CopyQuoted(line, lp);
        if lp == |line| {
          return;
        }
      } else if line[lp] == '#' && (lp == 0 || IsSpace(line[lp - 1])) {
        return;
      } else {
        lp := lp + 1;
      }
    }
  }

  /** A quoted stretch from its opening quote to behind its closing one, or to the end of the line. */
  method CopyQuoted(line: string, from: nat) returns (lp: nat)
    requires from < |line| && Quote(line, from) == NUL && IsQuote(line[from])
    requires forall j :: 0 <= j < from ==> !CutsAt(line, j)
    ensures from < lp <= |line| && (lp < |line| ==> Quote(line, lp) == NUL)
    ensures forall j :: 0 <= j < lp ==> !CutsAt(line, j)
    ensures lp == |line| || Quote(line, lp) == NUL
  {
    var quote := line[from];
    lp := from + 1;
    while lp < |line| && line[lp] != quote
      invariant from < lp <= |line| && Quote(line, lp) == quote
      invariant forall j :: 0 <= j < lp ==> !CutsAt(line, j)
    {
      lp := lp + 1;
    }
    if lp < |line| {
      lp := lp + 1;
    }
  }

  // ----- what the commands are -----

  lemma {:induction false} QuoteOfPrefix(s: string, t: string, i: nat)
    requires i <= |s|
    ensures Quote(s + t, i) == Quote(s, i)
  {
    if i > 0 {
      QuoteOfPrefix(s, t, i - 1);
    }
  }

  lemma {:induction false} CutsInPrefix(s: string, t: string, i: nat)
    requires i < |s|
    ensures CutsAt(s + t, i) <==> CutsAt(s, i)
  {
    QuoteOfPrefix(s, t, i);
  }

  /** A text that is one command: it contains no end of a command. */
  predicate Whole(c: string) {
    forall j :: 0 <= j < |c| ==> !CutsAt(c, j)
  }

  /** What can stand between two semicolons: one command, with its quotes closed. */
  predicate Closed(c: string) {
    Whole(c) && Quote(c, |c|) == NUL
  }

  predicate NoLeadingWhite(c: string) {
    c == "" || !IsSpace(c[0])
  }

  /** The shape of the commands of a line that does not begin with white space. */
  predicate WellShaped(cs: seq<string>) {
    && cs != []
    && (forall i :: 0 <= i < |cs| ==> Whole(cs[i]) && NoLeadingWhite(cs[i]))
    && (forall i :: 0 <= i < |cs| - 1 ==> Closed(cs[i]))
  }

  lemma {:induction false} FirstCommand(s: string)
    ensures Whole(s[..Cut(s)]) && (Cut(s) < |s| ==> Closed(s[..Cut(s)]))
  {
    var c := Cut(s);
    assert s[..c] + s[c..] == s;
    QuoteOfPrefix(s[..c], s[c..], c);
    forall j | 0 <= j < c ensures !CutsAt(s[..c], j) {
      CutsInPrefix(s[..c], s[c..], j);
    }
  }

  /** Every line splits into well shaped commands: no semicolon and no comment is left in any of them. */
  lemma {:induction false} CommandsAreWellShaped(s: string)
    requires NoLeadingWhite(s)
    ensures WellShaped(Commands(s))
    decreases |s|
  {
    FirstCommand(s);
    var r := Remainder(s);
    if s != "" && r != "" {
      CommandsAreWellShaped(r);
      assert Commands(s)[1..] == Commands(r);
      var cs := Commands(s);
      forall i | 1 <= i < |cs| ensures Whole(cs[i]) && NoLeadingWhite(cs[i]) && (i < |cs| - 1 ==> Closed(cs[i])) {
        assert cs[i] == Commands(r)[i - 1];
      }
    }
  }

  /** The commands with semicolons between them. */
  function Join(cs: seq<string>): string
    requires cs != []
  {
    if |cs| == 1 then cs[0] else cs[0] + ";" + Join(cs[1..])
  }

  /**
   * And every list of well shaped commands, the last of them not empty, is what its join splits into: nothing
   * else is ever joined, cut or dropped.
   */
  lemma {:induction false} JoinSplits(cs: seq<string>)
    requires WellShaped(cs) && cs[|cs| - 1] != ""
    ensures Commands(Join(cs)) == cs
    decreases |cs|
  {
    var s := Join(cs);
    if |cs| == 1 {
      assert FirstCut(s, |s|);
      FirstCutUnique(s, |s|, Cut(s));
      assert s[..|s|] == s;
    } else {
      var c, rest := cs[0], Join(cs[1..]);
      assert s == c + (";" + rest);
      JoinCut(c, rest);
      FirstCutUnique(s, |c|, Cut(s));
      JoinStart(cs[1..]);
      assert s[|c| + 1..] == rest;
      assert Remainder(s) == rest;
      TailWellShaped(cs);
      JoinSplits(cs[1..]);
      assert s[..|c|] == c;
    }
  }

  lemma {:induction false} TailWellShaped(cs: seq<string>)
    requires WellShaped(cs) && |cs| > 1
    ensures WellShaped(cs[1..])
  {
    var t := cs[1..];
    forall i | 0 <= i < |t| ensures Whole(t[i]) && NoLeadingWhite(t[i]) && (i < |t| - 1 ==> Closed(t[i])) {
      assert t[i] == cs[i + 1];
    }
  }

  lemma {:induction false} JoinCut(c: string, rest: string)
    requires Closed(c)
    ensures FirstCut(c + (";" + rest), |c|)
  {
    var s := c + (";" + rest);
    QuoteOfPrefix(c, ";" + rest, |c|);
    forall j | 0 <= j < |c| ensures !CutsAt(s, j) {
      CutsInPrefix(c, ";" + rest, j);
    }
  }

  lemma {:induction false} JoinStart(cs: seq<string>)
    requires cs != [] && NoLeadingWhite(cs[0]) && cs[|cs| - 1] != ""
    ensures Join(cs) != "" && NoLeadingWhite(Join(cs))
  {
  }

  lemma {:induction false} NothingQuoted(s: string, i: nat)
    requires i <= |s| && forall j :: 0 <= j < i ==> !IsQuote(s[j])
    ensures Quote(s, i) == NUL
  {
    if i > 0 {
      NothingQuoted(s, i - 1);
    }
  }

  /** In a line without quotes and semicolons the only command ends in front of the first number sign that begins the
      line or stands behind white space, and what follows is dropped; other number signs belong to it. */
  lemma {:induction false} CommentsBegin(s: string, i: nat)
    requires i <= |s| && forall j :: 0 <= j < i ==> !IsQuote(s[j]) && s[j] != ';'
    requires forall j :: 0 <= j < i && s[j] == '#' ==> j > 0 && !IsSpace(s[j - 1])
    requires i < |s| ==> s[i] == '#' && (i == 0 || IsSpace(s[i - 1]))
    ensures Commands(s) == [s[..i]]
  {
    forall j | 0 <= j <= i
      ensures Quote(s, j) == NUL
    {
      NothingQuoted(s, j);
    }
    FirstCutUnique(s, i, Cut(s));
    CommandsUnfold(s);
  }

  /** With semicolons too: each of them ends a command. */
  lemma {:induction false} SemicolonsEnd(c: string, s: string)
    requires forall j :: 0 <= j < |c| ==> !IsQuote(c[j]) && c[j] != ';' && c[j] != '#'
    ensures Commands(c + ";" + s) == [c] + if SkipSpace(s) == "" then [] else Commands(SkipSpace(s))
  {
    var t := c + ";" + s;
    assert forall j :: 0 <= j < |c| ==> t[j] == c[j];
    forall j | 0 <= j <= |c|
      ensures Quote(t, j) == NUL
    {
      NothingQuoted(t, j);
    }
    FirstCutUnique(t, |c|, Cut(t));
    assert t[..|c|] == c && t[|c| + 1..] == s;
    CommandsUnfold(t);
  }

  /** A quoted piece of text, wherever it stands: no command ends in it, at its quotes neither, and behind it
      everything is as in front of it. */
  lemma {:induction false} QuotedSemicolonStays(p: string, x: string, q: char, t: string, i: nat)
    requires IsQuote(q) && q !in x && Quote(p, |p|) == NUL && |p| <= i <= |p| + |x| + 1
    ensures var s := p + [q] + x + [q] + t; !CutsAt(s, i) && Quote(s, |p| + |x| + 2) == NUL
  {
    var s := p + [q] + x + [q] + t;
    assert s[|p|] == s[|p| + |x| + 1] == q;
    if i > |p| {
      InsideQuote(p, x, q, t, i);
    }
    InsideQuote(p, x, q, t, |p| + |x| + 1);
  }

  lemma {:induction false} InsideQuote(p: string, x: string, q: char, t: string, i: nat)
    requires IsQuote(q) && q !in x && Quote(p, |p|) == NUL && |p| < i <= |p| + |x| + 1
    ensures Quote(p + [q] + x + [q] + t, i) == q
  {
    var s := p + [q] + x + [q] + t;
    if i > |p| + 1 {
      InsideQuote(p, x, q, t, i - 1);
      assert s[i - 1] == x[i - 2 - |p|];
    } else {
      assert s == p + ([q] + x + [q] + t);
      QuoteOfPrefix(p, [q] + x + [q] + t, |p|);
      assert s[|p|] == q;
    }
  }
}
