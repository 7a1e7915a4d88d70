/** The text side of the path transformer: cutting a path string before each
    command letter, turning a command's operand text into tokens the way the
    page does (commas become spaces, each run of white space becomes one
    space, the ends are trimmed, and the result is split at every space), and
    joining strings with a separator. */
module PathSyntax {

  /** The letters the path is cut before. */
  predicate IsCommandLetter(c: char) {
    c == 'L' || c == 'M' || c == 'C' || c == 'H' || c == 'V' || c == 'S' || c == 'Q' || c == 'T' || c == 'A' || c == 'Z' ||
    c == 'l' || c == 'm' || c == 'c' || c == 'h' || c == 'v' || c == 's' || c == 'q' || c == 't' || c == 'a' || c == 'z'
  }

  /** JavaScript's white space and line terminators, the characters matched
      by `\s` and removed by `trim`. */
  predicate IsSpace(c: char) {
    c == ' ' || c == '\t' || c == '\n' || c == '\r' || c == '\U{000B}' || c == '\U{000C}'
    || c == '\U{00A0}' || c == '\U{1680}' || ('\U{2000}' <= c <= '\U{200A}')
    || c == '\U{2028}' || c == '\U{2029}' || c == '\U{202F}' || c == '\U{205F}'
    || c == '\U{3000}' || c == '\U{FEFF}'
  }

  predicate IsSeparator(c: char) {
    c == ',' || IsSpace(c)
  }

  /** A non-empty operand token without separators, such as a printed number. */
  predicate IsToken(w: string) {
    w != [] && forall k :: 0 <= k < |w| ==> !IsSeparator(w[k])
  }

  predicate NoCommandLetter(w: string) {
    forall k :: 0 <= k < |w| ==> !IsCommandLetter(w[k])
  }

  function Concat(ps: seq<string>): string {
    if ps == [] then [] else ps[0] + Concat(ps[1..])
  }

  /** `xs.join(sep)`. */
  function Join(sep: string, xs: seq<string>): string {
    if xs == [] then [] else if |xs| == 1 then xs[0] else xs[0] + sep + Join(sep, xs[1..])
  }

  // ---------------------------------------------------------------------
  // Cutting a path into commands

  /** A cut of a non-empty string into commands: every piece is non-empty,
      every piece but the first begins with a command letter, and no piece
      holds a command letter after its first character. */
  predicate IsCommandSplit(ps: seq<string>) {
    (forall i :: 0 <= i < |ps| ==> ps[i] != []) &&
    (forall i :: 0 < i < |ps| ==> IsCommandLetter(ps[i][0])) &&
    (forall i :: 0 <= i < |ps| ==> NoCommandLetter(ps[i][1..]))
  }

  /** The first index at or after i that holds a command letter, or |s|. */
  function NextCut(s: string, i: nat): (j: nat)
    requires 1 <= i <= |s|
    ensures i <= j <= |s|
    ensures j < |s| ==> IsCommandLetter(s[j])
    ensures forall k :: i <= k < j ==> !IsCommandLetter(s[k])
    decreases |s| - i
  {
    if i == |s| || IsCommandLetter(s[i]) then i else NextCut(s, i + 1)
  }

  /** `s.split(/(?=[LMCHVSQTAZlmchvsqtaz])/)`: the empty string gives one
      empty piece; otherwise the pieces are the command split of s. */
  function SplitCommands(s: string): (pieces: seq<string>)
    ensures s == [] ==> pieces == [""]
    ensures s != [] ==> IsCommandSplit(pieces) && Concat(pieces) == s
    decreases |s|
  {
    if s == [] then [""]
    else
      var j := NextCut(s, 1);
      if j == |s| then
        SplitWhole(s);
        [s]
      else
        var rest := SplitCommands(s[j..]);
        SplitFirst(s, j, rest);
        [s[..j]] + rest
  }

  lemma ConcatHead(ps: seq<string>)
    requires ps != [] && ps[0] != []
    ensures Concat(ps) != [] && Concat(ps)[0] == ps[0][0]
  {
  }

  /** Helper: a string with no command letter after its first character is
      its own command split. */
  lemma SplitWhole(s: string)
    requires s != [] && NextCut(s, 1) == |s|
    ensures IsCommandSplit([s]) && Concat([s]) == s
  {
    assert s[1..] == s[1..|s|];
    assert Concat([s]) == s + Concat([]);
  }

  /** Helper: cutting before the first command letter j and then cutting the
      rest into a command split gives a command split. */
  lemma SplitFirst(s: string, j: nat, rest: seq<string>)
    requires 1 <= j < |s| && NextCut(s, 1) == j
    requires IsCommandSplit(rest) && Concat(rest) == s[j..]
    ensures IsCommandSplit([s[..j]] + rest) && Concat([s[..j]] + rest) == s
  {
    assert rest != [];
    ConcatHead(rest);
    assert forall k :: 0 <= k < j - 1 ==> s[..j][1..][k] == s[k + 1];
    var ps := [s[..j]] + rest;
    assert ps[1..] == rest;
    assert Concat(ps) == s[..j] + s[j..];
  }

  /** Helper: the first cut is at n when n is the first command letter after
      the start. */
  lemma NextCutIs(s: string, n: nat)
    requires 1 <= n <= |s|
    requires forall k :: 1 <= k < n ==> !IsCommandLetter(s[k])
    requires n < |s| ==> IsCommandLetter(s[n])
    ensures NextCut(s, 1) == n
  {
  }

  lemma SplitCommandsStep(s: string)
    requires s != []
    ensures NextCut(s, 1) == |s| ==> SplitCommands(s) == [s]
    ensures NextCut(s, 1) < |s| ==>
      SplitCommands(s) == [s[..NextCut(s, 1)]] + SplitCommands(s[NextCut(s, 1)..])
  {
  }

  lemma CommandSplitTail(ps: seq<string>)
    requires ps != [] && IsCommandSplit(ps)
    ensures IsCommandSplit(ps[1..])
  {
    forall i | 0 < i < |ps[1..]| ensures IsCommandLetter(ps[1..][i][0]) {
      assert ps[1..][i] == ps[i + 1];
    }
  }

  lemma FirstPiece(p: string, tail: string, s: string)
    requires s == p + tail && p != [] && NoCommandLetter(p[1..])
    ensures forall k :: 1 <= k < |p| ==> !IsCommandLetter(s[k])
  {
    forall k | 1 <= k < |p| ensures !IsCommandLetter(s[k]) {
      assert s[k] == p[1..][k - 1];
    }
  }

  /** The command split of a string is unique: cutting the concatenation of
      any command split gives that split back. */
  lemma {:induction false} SplitCommandsOfConcat(ps: seq<string>)
    requires ps != [] && IsCommandSplit(ps)
    ensures SplitCommands(Concat(ps)) == ps
    decreases |ps|
  {
    var s := Concat(ps);
    var n := |ps[0]|;
    var tail := Concat(ps[1..]);
    assert s == ps[0] + tail;
    FirstPiece(ps[0], tail, s);
    SplitCommandsStep(s);
    if |ps| == 1 {
      assert tail == [];
      NextCutIs(s, n);
      assert ps == [s];
    } else {
      ConcatHead(ps[1..]);
      assert s[n] == tail[0];
      NextCutIs(s, n);
      CommandSplitTail(ps);
      SplitCommandsOfConcat(ps[1..]);
      assert s[..n] == ps[0] && s[n..] == tail;
      assert ps == [ps[0]] + ps[1..];
    }
  }

  /** The pieces of `Join(" ", xs)` as the command split sees them: every
      piece but the last keeps the joining space. */
  function Padded(xs: seq<string>): (ps: seq<string>)
    ensures |ps| == |xs|
  {
    if |xs| <= 1 then xs else [xs[0] + " "] + Padded(xs[1..])
  }

  lemma {:induction false} PaddedAt(xs: seq<string>, i: nat)
    requires i < |xs|
    ensures Padded(xs)[i] == if i < |xs| - 1 then xs[i] + " " else xs[i]
    decreases |xs|
  {
    if |xs| > 1 && i > 0 {
      PaddedAt(xs[1..], i - 1);
    }
  }

  lemma {:induction false} ConcatPadded(xs: seq<string>)
    ensures Concat(Padded(xs)) == Join(" ", xs)
    decreases |xs|
  {
    if |xs| > 1 {
      ConcatPadded(xs[1..]);
      assert Concat(Padded(xs)) == xs[0] + " " + Concat(Padded(xs[1..]));
    } else if |xs| == 1 {
      assert Concat(Padded(xs)) == xs[0] + Concat([]);
    }
  }

  /** Cutting a space-joined sequence of commands gives the commands back,
      each but the last with its trailing space. */
  lemma SplitJoined(xs: seq<string>)
    requires xs != [] && IsCommandSplit(xs)
    ensures SplitCommands(Join(" ", xs)) == Padded(xs)
  {
    var ps := Padded(xs);
    forall i | 0 <= i < |xs|
      ensures ps[i] != [] && ps[i][0] == xs[i][0] && NoCommandLetter(ps[i][1..])
    {
      PaddedAt(xs, i);
      if i < |xs| - 1 {
        assert ps[i][1..] == xs[i][1..] + " ";
      }
    }
    assert IsCommandSplit(ps);
    ConcatPadded(xs);
    SplitCommandsOfConcat(ps);
  }

  // ---------------------------------------------------------------------
  // Operand text to tokens

  /** `s.replaceAll(",", " ")`. */
  function ReplaceCommas(s: string): (r: string)
    ensures |r| == |s|
    ensures forall i :: 0 <= i < |s| ==> r[i] == if s[i] == ',' then ' ' else s[i]
  {
    if s == [] then [] else [if s[0] == ',' then ' ' else s[0]] + ReplaceCommas(s[1..])
  }

  /** The suffix of s after its leading white space (`trimStart`). */
  function DropSpaces(s: string): (r: string)
    ensures |r| <= |s|
    ensures forall k :: 0 <= k < |r| ==> r[k] == s[|s| - |r| + k]
    ensures r == [] || !IsSpace(r[0])
    ensures forall k :: 0 <= k < |s| - |r| ==> IsSpace(s[k])
  {
    if s != [] && IsSpace(s[0]) then
      var r := DropSpaces(s[1..]);
      assert forall k :: 0 <= k < |r| ==> r[k] == s[1..][|s| - 1 - |r| + k];
      assert forall j :: 0 <= j < |s| - 1 - |r| ==> s[1 + j] == s[1..][j];
      r
    else s
  }

  /** `s.replaceAll(/\s+/g, ' ')`: every maximal run of white space becomes
      one space. */
  function CollapseSpaces(s: string): string
    decreases |s|
  {
    if s == [] then []
    else if IsSpace(s[0]) then " " + CollapseSpaces(DropSpaces(s[1..]))
    else [s[0]] + CollapseSpaces(s[1..])
  }

  /** The prefix of s before its trailing white space (`trimEnd`). */
  function TrimEnd(s: string): string {
    if s != [] && IsSpace(s[|s| - 1]) then TrimEnd(s[..|s| - 1]) else s
  }

  /** `s.trim()`. */
  function Trim(s: string): string {
    TrimEnd(DropSpaces(s))
  }

  /** `s.split(" ")`: the pieces between spaces, empty ones included. */
  function SplitOnSpace(s: string): (parts: seq<string>)
    ensures |parts| >= 1
  {
    if s == [] then [""]
    else if s[0] == ' ' then [""] + SplitOnSpace(s[1..])
    else
      var rest := SplitOnSpace(s[1..]);
      [[s[0]] + rest[0]] + rest[1..]
  }

  /** The operand tokens of a command's text. */
  function Tokens(text: string): seq<string> {
    SplitOnSpace(Trim(CollapseSpaces(ReplaceCommas(text))))
  }

  // ---------------------------------------------------------------------
  // Tokens of joined operands

  lemma ReplaceCommasAppend(u: string, v: string)
    ensures ReplaceCommas(u + v) == ReplaceCommas(u) + ReplaceCommas(v)
  {
    var l, r := ReplaceCommas(u + v), ReplaceCommas(u) + ReplaceCommas(v);
    assert |l| == |r|;
    forall i | 0 <= i < |l| ensures l[i] == r[i] {
      if i < |u| {
        assert (u + v)[i] == u[i];
      } else {
        assert (u + v)[i] == v[i - |u|];
      }
    }
  }

  lemma {:induction false} ReplaceCommasJoin(ws: seq<string>)
    requires forall i :: 0 <= i < |ws| ==> IsToken(ws[i])
    ensures ReplaceCommas(Join(",", ws)) == Join(" ", ws)
    decreases |ws|
  {
    if |ws| >= 1 {
      var w := ws[0];
      assert ReplaceCommas(w) == w;
      if |ws| > 1 {
        ReplaceCommasJoin(ws[1..]);
        ReplaceCommasAppend(w + ",", Join(",", ws[1..]));
        ReplaceCommasAppend(w, ",");
        assert ReplaceCommas(",") == " ";
      }
    }
  }

  lemma {:induction false} CollapseWord(w: string, u: string)
    requires forall k :: 0 <= k < |w| ==> !IsSpace(w[k])
    ensures CollapseSpaces(w + u) == w + CollapseSpaces(u)
    decreases |w|
  {
    if w != [] {
      assert (w + u)[1..] == w[1..] + u;
      CollapseWord(w[1..], u);
      assert w == [w[0]] + w[1..];
    } else {
      assert w + u == u;
    }
  }

  lemma CollapseSpace(u: string)
    requires u == [] || !IsSpace(u[0])
    ensures CollapseSpaces(" " + u) == " " + CollapseSpaces(u)
  {
    assert (" " + u)[1..] == u;
  }

  lemma JoinHead(sep: string, ws: seq<string>)
    requires ws != [] && ws[0] != []
    ensures Join(sep, ws) != [] && Join(sep, ws)[0] == ws[0][0]
  {
  }

  lemma {:induction false} JoinLast(sep: string, ws: seq<string>)
    requires ws != [] && ws[|ws| - 1] != []
    ensures var j := Join(sep, ws); var l := ws[|ws| - 1];
      j != [] && j[|j| - 1] == l[|l| - 1]
    decreases |ws|
  {
    if |ws| > 1 {
      JoinLast(sep, ws[1..]);
    }
  }

  lemma CollapseTail(tail: string)
    requires tail == "" || tail == " "
    ensures CollapseSpaces(tail) == tail
  {
    if tail == " " {
      CollapseSpace("");
    }
  }

  /** Helper: a token, a space, and text that starts with no white space. */
  lemma CollapseStep(w: string, rest: string)
    requires IsToken(w) && (rest == [] || !IsSpace(rest[0]))
    ensures CollapseSpaces(w + (" " + rest)) == w + (" " + CollapseSpaces(rest))
  {
    CollapseWord(w, " " + rest);
    CollapseSpace(rest);
  }

  /** Helper: a single space is the only white space of a space-joined
      sequence of tokens, so collapsing leaves it unchanged. */
  lemma {:induction false} CollapseJoin(ws: seq<string>, tail: string)
    requires tail == "" || tail == " "
    requires forall i :: 0 <= i < |ws| ==> IsToken(ws[i])
    ensures CollapseSpaces(Join(" ", ws) + tail) == Join(" ", ws) + tail
    decreases |ws|
  {
    CollapseTail(tail);
    if ws == [] {
      assert Join(" ", ws) + tail == tail;
    } else if |ws| == 1 {
      CollapseWord(ws[0], tail);
    } else {
      var rest := Join(" ", ws[1..]) + tail;
      assert Join(" ", ws) + tail == ws[0] + (" " + rest);
      JoinHead(" ", ws[1..]);
      CollapseStep(ws[0], rest);
      CollapseJoin(ws[1..], tail);
    }
  }

  lemma TrimEndKeeps(s: string)
    requires s == [] || !IsSpace(s[|s| - 1])
    ensures TrimEnd(s) == s
  {
  }

  lemma TrimEndDrops(s: string, j: string)
    requires s == j + " "
    ensures TrimEnd(s) == TrimEnd(j)
  {
    assert s[..|s| - 1] == j;
  }

  lemma DropSpacesKeeps(s: string)
    requires s == [] || !IsSpace(s[0])
    ensures DropSpaces(s) == s
  {
  }

  lemma TrimTail(tail: string)
    requires tail == "" || tail == " "
    ensures Trim(tail) == ""
  {
    if tail == " " {
      assert DropSpaces(" ") == DropSpaces(" "[1..]);
    }
  }

  /** Helper: trimming a space-joined sequence of tokens, followed perhaps by
      one space, leaves the joined tokens. */
  lemma TrimJoin(ws: seq<string>, tail: string)
    requires tail == "" || tail == " "
    requires forall i :: 0 <= i < |ws| ==> IsToken(ws[i])
    ensures Trim(Join(" ", ws) + tail) == Join(" ", ws)
  {
    var j := Join(" ", ws);
    var s := j + tail;
    if ws == [] {
      assert s == tail;
      TrimTail(tail);
    } else {
      JoinHead(" ", ws);
      JoinLast(" ", ws);
      assert s[0] == j[0];
      DropSpacesKeeps(s);
      TrimEndKeeps(j);
      if tail == " " {
        TrimEndDrops(s, j);
      } else {
        assert s == j;
      }
    }
  }

  lemma {:induction false} SplitWord(w: string, u: string)
    requires forall k :: 0 <= k < |w| ==> w[k] != ' '
    ensures SplitOnSpace(w + " " + u) == [w] + SplitOnSpace(u)
    ensures SplitOnSpace(w) == [w]
    decreases |w|
  {
    if w == [] {
      assert w + " " + u == " " + u;
      assert (" " + u)[1..] == u;
    } else {
      assert (w + " " + u)[1..] == w[1..] + " " + u;
      SplitWord(w[1..], u);
      assert w == [w[0]] + w[1..];
    }
  }

  /** Helper: splitting a space-joined sequence at its spaces. */
  lemma {:induction false} SplitOnSpaceJoin(ws: seq<string>)
    requires ws != []
    requires forall i :: 0 <= i < |ws| ==> IsToken(ws[i])
    ensures SplitOnSpace(Join(" ", ws)) == ws
    decreases |ws|
  {
    SplitWord(ws[0], Join(" ", ws[1..]));
    if |ws| > 1 {
      SplitOnSpaceJoin(ws[1..]);
      assert ws == [ws[0]] + ws[1..];
    }
  }

  /** Tokenizing comma-joined tokens, with or without a trailing space, gives
      the tokens back; with no tokens it gives one empty token. */
  lemma TokensOfJoin(ws: seq<string>, tail: string)
    requires tail == "" || tail == " "
    requires forall i :: 0 <= i < |ws| ==> IsToken(ws[i])
    ensures Tokens(Join(",", ws) + tail) == if ws == [] then [""] else ws
  {
    ReplaceCommasJoin(ws);
    ReplaceCommasAppend(Join(",", ws), tail);
    assert ReplaceCommas(tail) == tail;
    CollapseJoin(ws, tail);
    TrimJoin(ws, tail);
    if ws != [] {
      SplitOnSpaceJoin(ws);
    }
  }

  /** Characters of a join come from the separator or from the parts. */
  lemma {:induction false} JoinNoCommandLetter(sep: string, ws: seq<string>)
    requires NoCommandLetter(sep)
    requires forall i :: 0 <= i < |ws| ==> NoCommandLetter(ws[i])
    ensures NoCommandLetter(Join(sep, ws))
    decreases |ws|
  {
    if |ws| > 1 {
      JoinNoCommandLetter(sep, ws[1..]);
      var a, b := ws[0] + sep, Join(sep, ws[1..]);
      forall k | 0 <= k < |a + b| ensures !IsCommandLetter((a + b)[k]) {
        if k < |ws[0]| {
          assert (a + b)[k] == ws[0][k];
        } else if k < |a| {
          assert (a + b)[k] == sep[k - |ws[0]|];
        } else {
          assert (a + b)[k] == b[k - |a|];
        }
      }
    }
  }
  // ---------------------------------------------------------------------
  // Tokens of any operand text

  /** A string as the collapsing step leaves it: no comma, no white space
      but the plain space, and no two spaces in a row. */
  ghost predicate Spaced(s: string) {
    (forall i :: 0 <= i < |s| ==> s[i] != ',' && (IsSpace(s[i]) ==> s[i] == ' '))
    && (forall i, j :: 0 <= i < j < |s| && j == i + 1 ==> !(s[i] == ' ' && s[j] == ' '))
  }

  /** Helper: collapsing white space in a comma-free string gives a spaced
      string, which begins with a space only if the input begins with white
      space. */
  lemma {:induction false} CollapseIsSpaced(s: string)
    requires forall i :: 0 <= i < |s| ==> s[i] != ','
    ensures Spaced(CollapseSpaces(s))
    ensures CollapseSpaces(s) != [] && CollapseSpaces(s)[0] == ' ' ==> s != [] && IsSpace(s[0])
    decreases |s|
  {
    if s == [] {
    } else if IsSpace(s[0]) {
      var u := DropSpaces(s[1..]);
      forall i | 0 <= i < |u| ensures u[i] != ',' {
        assert u[i] == s[1..][|s[1..]| - |u| + i];
      }
      CollapseIsSpaced(u);
    } else {
      CollapseIsSpaced(s[1..]);
    }
  }

  /** Helper: a piece of a spaced string is spaced. */
  lemma SpacedSlice(s: string, lo: nat, hi: nat)
    requires Spaced(s) && lo <= hi <= |s|
    ensures Spaced(s[lo..hi])
  {
    var t := s[lo..hi];
    forall i, j | 0 <= i < j < |t| && j == i + 1 ensures !(t[i] == ' ' && t[j] == ' ') {
      assert t[i] == s[lo + i] && t[j] == s[lo + j];
    }
  }

  /** Helper: `trimEnd` keeps a prefix that ends in no white space, and
      keeps a first character that is not white space. */
  lemma {:induction false} TrimEndPrefix(s: string)
    ensures |TrimEnd(s)| <= |s| && TrimEnd(s) == s[..|TrimEnd(s)|]
    ensures TrimEnd(s) == [] || !IsSpace(TrimEnd(s)[|TrimEnd(s)| - 1])
    ensures s != [] && !IsSpace(s[0]) ==> TrimEnd(s) != []
    decreases |s|
  {
    if s != [] && IsSpace(s[|s| - 1]) {
      TrimEndPrefix(s[..|s| - 1]);
    }
  }

  /** Helper: `trim` leaves a string that neither begins nor ends with
      white space. */
  lemma TrimEnds(s: string)
    ensures Trim(s) == [] || (!IsSpace(Trim(s)[0]) && !IsSpace(Trim(s)[|Trim(s)| - 1]))
  {
    var u := DropSpaces(s);
    TrimEndPrefix(u);
    var t := TrimEnd(u);
    if t != [] {
      assert t[0] == u[0];
    }
  }

  /** Helper: `trimStart` keeps a suffix. */
  lemma DropSpacesSuffix(s: string)
    ensures DropSpaces(s) == s[|s| - |DropSpaces(s)|..]
  {
    var u := DropSpaces(s);
    forall k | 0 <= k < |u| ensures u[k] == s[|s| - |u|..][k] {
    }
  }

  /** Helper: `trimStart` of a spaced string is spaced. */
  lemma DropSpacesSpaced(s: string)
    requires Spaced(s)
    ensures Spaced(DropSpaces(s))
  {
    DropSpacesSuffix(s);
    SpacedSlice(s, |s| - |DropSpaces(s)|, |s|);
  }

  /** Helper: `trimEnd` of a spaced string is spaced. */
  lemma TrimEndSpaced(u: string)
    requires Spaced(u)
    ensures Spaced(TrimEnd(u))
  {
    TrimEndPrefix(u);
    SpacedSlice(u, 0, |TrimEnd(u)|);
  }

  /** Helper: trimming a spaced string leaves a spaced string that neither
      begins nor ends with a space. */
  lemma TrimSpaced(s: string)
    requires Spaced(s)
    ensures Spaced(Trim(s))
    ensures Trim(s) == [] || (Trim(s)[0] != ' ' && Trim(s)[|Trim(s)| - 1] != ' ')
  {
    DropSpacesSpaced(s);
    TrimEndSpaced(DropSpaces(s));
    TrimEnds(s);
  }

  /** Helper: splitting a spaced string that does not end in a space at its
      spaces gives pieces without separators, all non-empty but perhaps the
      first, which is non-empty too when the string begins with no space. */
  lemma {:induction false} SplitSpaced(s: string)
    requires Spaced(s) && (s == [] || s[|s| - 1] != ' ')
    ensures var ps := SplitOnSpace(s);
      (forall i :: 0 <= i < |ps| ==> forall k :: 0 <= k < |ps[i]| ==> !IsSeparator(ps[i][k]))
      && (forall i :: 1 <= i < |ps| ==> ps[i] != [])
      && (s != [] && s[0] != ' ' ==> ps[0] != [])
    decreases |s|
  {
    if s != [] {
      SpacedSlice(s, 1, |s|);
      var rest := SplitOnSpace(s[1..]);
      if s[0] == ' ' {
        assert |s| >= 2 && s[1] != ' ';
        SplitSpaced(s[1..]);
        assert SplitOnSpace(s) == [""] + rest;
      } else {
        SplitSpaced(s[1..]);
        var ps := SplitOnSpace(s);
        assert ps == [[s[0]] + rest[0]] + rest[1..];
        forall i | 0 <= i < |ps| ensures forall k :: 0 <= k < |ps[i]| ==> !IsSeparator(ps[i][k]) {
          if i == 0 {
            forall k | 0 <= k < |ps[0]| ensures !IsSeparator(ps[0][k]) {
              if k > 0 {
                assert ps[0][k] == rest[0][k - 1];
              }
            }
          } else {
            assert ps[i] == rest[i];
          }
        }
      }
    }
  }

  /** The tokenizer on any operand text: either the text holds nothing but
      commas and white space, and gives the one empty token, or every token
      it gives is a non-empty run of characters that are neither commas nor
      white space. */
  lemma TokensAreTokens(text: string)
    ensures Tokens(text) == [""] || forall i :: 0 <= i < |Tokens(text)| ==> IsToken(Tokens(text)[i])
  {
    var r := ReplaceCommas(text);
    CollapseIsSpaced(r);
    var c := CollapseSpaces(r);
    TrimSpaced(c);
    var t := Trim(c);
    SplitSpaced(t);
    if t == [] {
      assert Tokens(text) == SplitOnSpace([]);
    }
  }
}
