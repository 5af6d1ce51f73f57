/** The split of the command's argument string done by the `strtok (args, " ")`
    loop of `mmap_command`: maximal runs of non-blank characters, in order. */
module Tokenizer {

  /** The delimiter set handed to strtok is the single character ' '. */
  predicate IsDelimiter(c: char) { c == ' ' }

  /** A token strtok can hand back: non-empty and free of delimiters. */
  predicate IsWord(w: string)
  {
    w != [] && forall k :: 0 <= k < |w| ==> !IsDelimiter(w[k])
  }

  /** Length of the run of non-delimiters at the start of `s`. */
  function WordLength(s: string): (n: nat)
    ensures n <= |s|
    ensures forall k :: 0 <= k < n ==> !IsDelimiter(s[k])
    ensures n < |s| ==> IsDelimiter(s[n])
  {
    if s == [] || IsDelimiter(s[0]) then 0 else 1 + WordLength(s[1..])
  }

  /** The three facts above pin WordLength down. */
  lemma WordLengthIs(s: string, n: nat)
    requires n <= |s|
    requires forall k :: 0 <= k < n ==> !IsDelimiter(s[k])
    requires n == |s| || IsDelimiter(s[n])
    ensures WordLength(s) == n
  {
  }

  /** The tokens successive strtok calls return for `s`. */
  function Tokens(s: string): seq<string>
    decreases |s|
  {
    if s == [] then []
    else if IsDelimiter(s[0]) then Tokens(s[1..])
    else
      var n := WordLength(s);
      [s[..n]] + Tokens(s[n..])
  }

  /** Runs of blanks never produce an empty token, and no token holds a blank. */
  lemma {:induction false} TokensAreWords(s: string)
    ensures forall i :: 0 <= i < |Tokens(s)| ==> IsWord(Tokens(s)[i])
    decreases |s|
  {
    if s == [] {
    } else if IsDelimiter(s[0]) {
      TokensAreWords(s[1..]);
    } else {
      TokensAreWords(s[WordLength(s)..]);
    }
  }

  /** Blanks in front of the arguments are skipped. */
  lemma {:induction false} LeadingDelimitersIgnored(blanks: string, s: string)
    requires forall k :: 0 <= k < |blanks| ==> IsDelimiter(blanks[k])
    ensures Tokens(blanks + s) == Tokens(s)
    decreases |blanks|
  {
    if blanks != [] {
      assert (blanks + s)[0] == blanks[0];
      assert (blanks + s)[1..] == blanks[1..] + s;
      assert Tokens(blanks + s) == Tokens(blanks[1..] + s);
      LeadingDelimitersIgnored(blanks[1..], s);
    } else {
      assert blanks + s == s;
    }
  }

  /** Words joined by single blanks. */
  function Unwords(ws: seq<string>): string
  {
    if ws == [] then []
    else if |ws| == 1 then ws[0]
    else ws[0] + " " + Unwords(ws[1..])
  }

  /** Splitting undoes joining: the user's words come back one for one. */
  lemma {:induction false} TokensOfUnwords(ws: seq<string>)
    requires forall i :: 0 <= i < |ws| ==> IsWord(ws[i])
    ensures Tokens(Unwords(ws)) == ws
  {
    if ws != [] {
      var w := ws[0];
      var rest := if |ws| == 1 then [] else " " + Unwords(ws[1..]);
      var s := w + rest;
      assert Unwords(ws) == s;
      assert s[..|w|] == w;
      assert s[|w|..] == rest;
      WordLengthIs(s, |w|);
      if |ws| > 1 {
        assert rest[1..] == Unwords(ws[1..]);
        TokensOfUnwords(ws[1..]);
      }
    }
  }

  /** Words with a run of blanks between each two: `gaps[i]` sits between
      `ws[i]` and `ws[i + 1]`. */
  function Spaced(ws: seq<string>, gaps: seq<string>): string
    requires |gaps| == if ws == [] then 0 else |ws| - 1
  {
    if ws == [] then []
    else if |ws| == 1 then ws[0]
    else ws[0] + gaps[0] + Spaced(ws[1..], gaps[1..])
  }

  predicate AllDelimiters(s: string)
  {
    forall k :: 0 <= k < |s| ==> IsDelimiter(s[k])
  }

  /** A word followed by nothing or by a blank is a token of its own. */
  lemma WordThenDelimiter(w: string, r: string)
    requires IsWord(w)
    requires r == [] || IsDelimiter(r[0])
    ensures Tokens(w + r) == [w] + Tokens(r)
  {
    var s := w + r;
    assert s[..|w|] == w;
    assert s[|w|..] == r;
    WordLengthIs(s, |w|);
  }

  /** Splitting undoes spacing of any width: however many blanks sit in front,
      between the words and behind them, the words come back one for one. */
  lemma {:induction false} TokensOfSpaced(lead: string, ws: seq<string>, gaps: seq<string>, trail: string)
    requires forall i :: 0 <= i < |ws| ==> IsWord(ws[i])
    requires |gaps| == if ws == [] then 0 else |ws| - 1
    requires forall i :: 0 <= i < |gaps| ==> gaps[i] != [] && AllDelimiters(gaps[i])
    requires AllDelimiters(lead) && AllDelimiters(trail)
    ensures Tokens(lead + Spaced(ws, gaps) + trail) == ws
    decreases |ws|
  {
    var body := Spaced(ws, gaps) + trail;
    assert lead + Spaced(ws, gaps) + trail == lead + body;
    LeadingDelimitersIgnored(lead, body);
    if ws == [] {
      assert body == trail;
      LeadingDelimitersIgnored(trail, []);
      assert trail + [] == trail;
    } else if |ws| == 1 {
      assert body == ws[0] + trail;
      WordThenDelimiter(ws[0], trail);
      LeadingDelimitersIgnored(trail, []);
      assert trail + [] == trail;
    } else {
      var rest := Spaced(ws[1..], gaps[1..]);
      var r := gaps[0] + rest + trail;
      assert body == ws[0] + r;
      assert r[0] == gaps[0][0];
      WordThenDelimiter(ws[0], r);
      assert forall i :: 0 <= i < |ws[1..]| ==> ws[1..][i] == ws[i + 1];
      assert forall i :: 0 <= i < |gaps[1..]| ==> gaps[1..][i] == gaps[i + 1];
      TokensOfSpaced(gaps[0], ws[1..], gaps[1..], trail);
      assert [ws[0]] + ws[1..] == ws;
    }
  }

  /** One strtok call past the delimiters: the end of the token starting at `i`. */
  method ScanWord(args: string, i: nat) returns (j: nat)
    requires i <= |args|
    ensures j == i + WordLength(args[i..])
  {
    j := i;
    while j < |args| && !IsDelimiter(args[j])
      invariant i <= j <= |args|
      invariant forall k :: i <= k < j ==> !IsDelimiter(args[k])
    {
      j := j + 1;
    }
    assert forall k :: 0 <= k < j - i ==> args[i..][k] == args[i + k];
    WordLengthIs(args[i..], j - i);
  }

  /** The strtok loop: collects the tokens of `args` one call at a time. */
  method SplitArgs(args: string) returns (arg: seq<string>)
    ensures arg == Tokens(args)
  {
    arg := [];
    var i := 0;
    while i < |args|
      invariant 0 <= i <= |args|
      invariant arg + Tokens(args[i..]) == Tokens(args)
    {
      if IsDelimiter(args[i]) {
        assert args[i..][1..] == args[i + 1..];
        i := i + 1;
      } else {
        var j := ScanWord(args, i);
        assert args[i..][..j - i] == args[i..j];
        assert args[i..][j - i..] == args[j..];
        ghost var rest := Tokens(args[j..]);
        assert Tokens(args[i..]) == [args[i..j]] + rest;
        assert (arg + [args[i..j]]) + rest == arg + ([args[i..j]] + rest);
        arg := arg + [args[i..j]];
        i := j;
      }
    }
  }
}
