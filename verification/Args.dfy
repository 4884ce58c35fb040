/**
 * Splitting a command line into arguments and joining them again: split_args
 * and join_args of src/stringop.c. A C string is the sequence of its characters
 * before the terminating zero.
 */
module Args {

  /** Blank, form feed, newline, carriage return, tab and vertical tab. */
  predicate IsSpace(c: char) {
    c == ' ' || c == '\U{0C}' || c == '\n' || c == '\r' || c == '\t' || c == '\U{0B}'
  }

  // ---------------------------------------------------------------------
  // The scanner, one character at a time
  // ---------------------------------------------------------------------

  datatype Scanner = Scanner(inString: bool, inChar: bool, inBrackets: bool, escaped: bool)

  const CLEAN: Scanner := Scanner(false, false, false, false)

  /** Between the quotes, brackets and escapes, whitespace ends the token. */
  predicate Ends(st: Scanner, c: char) { st == CLEAN && IsSpace(c) }

  function Next(st: Scanner, c: char): Scanner {
    var quiet := !st.inString && !st.inChar && !st.escaped;
    if c == '\\' then st.(escaped := !st.escaped)
    else if c == '"' && !st.inChar && !st.escaped then st.(inString := !st.inString)
    else if c == '\'' && !st.inString && !st.escaped then st.(inChar := !st.inChar)
    else if c == '[' && quiet && !st.inBrackets then st.(inBrackets := true)
    else if c == ']' && quiet && st.inBrackets then st.(inBrackets := false)
    else st.(escaped := false)
  }

  /** Where the token that starts here ends: at the first whitespace met in the clean state, or never. */
  function TokenEnd(s: string, st: Scanner): (n: nat)
    ensures n <= |s|
    ensures s != "" && !Ends(st, s[0]) ==> n > 0
  {
    if s == "" || Ends(st, s[0]) then 0 else 1 + TokenEnd(s[1..], Next(st, s[0]))
  }

  function StateAfter(s: string, st: Scanner): Scanner {
    if s == "" then st else StateAfter(s[1..], Next(st, s[0]))
  }

  /** strspn over the whitespace. */
  function Span(s: string): (n: nat)
    ensures n <= |s|
    ensures n < |s| ==> !IsSpace(s[n])
  {
    if s == "" || !IsSpace(s[0]) then 0 else 1 + Span(s[1..])
  }

  /** The tokens of a string, as the scanner cuts them. */
  function Tokens(s: string): (ts: seq<string>)
    decreases |s|
  {
    var rest := s[Span(s)..];
    if rest == "" then []
    else
      var n := TokenEnd(rest, CLEAN);
      [rest[..n]] + Tokens(rest[n..])
  }

  /** The arguments with one space between each two. */
  function Join(ts: seq<string>): string
    requires ts != []
  {
    if |ts| == 1 then ts[0] else ts[0] + " " + Join(ts[1..])
  }

  // ---------------------------------------------------------------------
  // Which token lists come back
  // ---------------------------------------------------------------------

  /** The scanner does not cut it. */
  predicate Whole(t: string) { t != "" && TokenEnd(t, CLEAN) == |t| }

  /** Every token is whole, and only the last may leave a quote, bracket or escape open. */
  predicate WellFormed(ts: seq<string>) {
    && (forall i :: 0 <= i < |ts| ==> Whole(ts[i]))
    && (forall i :: 0 <= i < |ts| - 1 ==> StateAfter(ts[i], CLEAN) == CLEAN)
  }

  /** The scanner goes through a part it does not cut. */
  lemma {:induction false} TokenEndAppend(t: string, u: string, st: Scanner)
    requires TokenEnd(t, st) == |t|
    ensures TokenEnd(t + u, st) == |t| + TokenEnd(u, StateAfter(t, st))
  {
    if t == "" {
      assert t + u == u;
    } else {
      assert (t + u)[1..] == t[1..] + u;
      TokenEndAppend(t[1..], u, Next(st, t[0]));
    }
  }

  /** What it cuts off is uncut, and it was clean where it cut. */
  lemma {:induction false} TokenEndCuts(s: string, st: Scanner)
    ensures var n := TokenEnd(s, st);
            && TokenEnd(s[..n], st) == n
            && (n < |s| ==> StateAfter(s[..n], st) == CLEAN && IsSpace(s[n]))
  {
    if s != "" && !Ends(st, s[0]) {
      var n := TokenEnd(s, st);
      TokenEndCuts(s[1..], Next(st, s[0]));
      assert s[..n][1..] == s[1..][..n - 1];
    }
  }

  lemma {:induction false} TokensWellFormed(s: string)
    ensures WellFormed(Tokens(s))
    decreases |s|
  {
    var rest := s[Span(s)..];
    if rest != "" {
      var n := TokenEnd(rest, CLEAN);
      TokenEndCuts(rest, CLEAN);
      TokensWellFormed(rest[n..]);
      if n == |rest| {
        assert rest[n..] == "";
      }
    }
  }

  lemma TokensOfOne(t: string)
    requires Whole(t)
    ensures Tokens(t) == [t]
  {
    assert !IsSpace(t[0]);
    assert t[0..] == t;
    assert t[..|t|] == t && t[|t|..] == "";
  }

  lemma TokensOfMore(t: string, rest: string)
    requires Whole(t) && StateAfter(t, CLEAN) == CLEAN
    ensures Tokens(t + " " + rest) == [t] + Tokens(rest)
  {
    var s := t + " " + rest;
    assert s[0] == t[0] && !IsSpace(t[0]);
    assert s[0..] == s && s == t + (" " + rest);
    TokenEndAppend(t, " " + rest, CLEAN);
    assert s[..|t|] == t && s[|t|..] == " " + rest;
    TokensAfterSpace(rest);
  }

  lemma TokensAfterSpace(rest: string)
    ensures Tokens(" " + rest) == Tokens(rest)
  {
    var s := " " + rest;
    assert s[1..] == rest;
    assert s[Span(s)..] == rest[Span(rest)..];
  }

  lemma {:induction false} WellFormedComesBack(ts: seq<string>)
    requires ts != [] && WellFormed(ts)
    ensures Tokens(Join(ts)) == ts
  {
    if |ts| == 1 {
      TokensOfOne(ts[0]);
    } else {
      assert WellFormed(ts[1..]);
      WellFormedComesBack(ts[1..]);
      TokensOfMore(ts[0], Join(ts[1..]));
    }
  }

  /** Splitting what was joined gives the tokens back exactly when they are well formed. */
  lemma SplitUndoesJoin(ts: seq<string>)
    requires ts != []
    ensures Tokens(Join(ts)) == ts <==> WellFormed(ts)
  {
    TokensWellFormed(Join(ts));
    if WellFormed(ts) {
      WellFormedComesBack(ts);
    }
  }

  /** Joining and splitting again changes nothing, through quotes, brackets and escapes, open or closed. */
  lemma SplitJoinSplit(s: string)
    requires Tokens(s) != []
    ensures Tokens(Join(Tokens(s))) == Tokens(s)
  {
    TokensWellFormed(s);
    WellFormedComesBack(Tokens(s));
  }

  /** There is a token unless there is nothing but whitespace. */
  lemma {:induction false} TokensEmpty(s: string)
    ensures Tokens(s) == [] <==> forall i :: 0 <= i < |s| ==> IsSpace(s[i])
  {
    if s != "" && IsSpace(s[0]) {
      TokensEmpty(s[1..]);
      assert s[Span(s)..] == s[1..][Span(s[1..])..];
      assert forall i :: 1 <= i < |s| ==> s[i] == s[1..][i - 1];
    }
  }

  // ---------------------------------------------------------------------
  // The loops
  // ---------------------------------------------------------------------

  lemma {:induction false} StateAfterOneMore(t: string, c: char, st: Scanner)
    ensures StateAfter(t + [c], st) == Next(StateAfter(t, st), c)
  {
    if t != "" {
      assert (t + [c])[1..] == t[1..] + [c];
      StateAfterOneMore(t[1..], c, Next(st, t[0]));
    }
  }

  /** The loop invariant of split_args inside a token: what was scanned of it is uncut. */
  ghost predicate Scanning(s: string, start: nat, end: nat, st: Scanner) {
    && start <= end <= |s|
    && (start < |s| ==> !IsSpace(s[start]))
    && st == StateAfter(s[start..end], CLEAN)
    && TokenEnd(s[start..], CLEAN) == end - start + TokenEnd(s[end..], st)
  }

  lemma ScanningStarts(s: string, start: nat)
    requires start <= |s| && (start < |s| ==> !IsSpace(s[start]))
    ensures Scanning(s, start, start, CLEAN)
  {
  }

  lemma ScanningGoesOn(s: string, start: nat, end: nat, st: Scanner)
    requires Scanning(s, start, end, st) && end < |s| && !Ends(st, s[end])
    ensures Scanning(s, start, end + 1, Next(st, s[end]))
  {
    assert s[start..end + 1] == s[start..end] + [s[end]];
    StateAfterOneMore(s[start..end], s[end], CLEAN);
    assert s[end..][1..] == s[end + 1..];
  }

  /** The token just scanned is the next one. */
  lemma ScanningEnds(s: string, start: nat, end: nat, st: Scanner)
    requires Scanning(s, start, end, st) && start < end && (end == |s| || Ends(st, s[end]))
    ensures Tokens(s[start..]) == [s[start..end]] + Tokens(s[end..])
  {
    var rest := s[start..];
    assert rest[Span(rest)..] == rest;
    assert rest[..end - start] == s[start..end] && rest[end - start..] == s[end..];
  }

  lemma SkipsSpan(s: string, end: nat)
    requires end <= |s|
    ensures Tokens(s[end + Span(s[end..])..]) == Tokens(s[end..])
  {
    assert s[end + Span(s[end..])..] == s[end..][Span(s[end..])..];
    TokensSkip(s[end..]);
  }

  lemma TokensSkip(s: string)
    ensures Tokens(s[Span(s)..]) == Tokens(s)
  {
    var next := s[Span(s)..];
    assert Span(next) == 0;
    assert next[0..] == next;
  }

  method SplitArgs(s: string) returns (argv: seq<string>)
    ensures argv == Tokens(s)
  {
    hide Tokens, TokenEnd, StateAfter, Scanning;
    argv := [];
    var inToken, inString, inChar, inBrackets, escaped := false, false, false, false, false;
    var start: nat, end: nat := 0, 0;
    assert s[0..] == s;
    while start < |s|
      invariant start <= end <= |s|
      invariant inToken ==> Scanning(s, start, end, Scanner(inString, inChar, inBrackets, escaped))
      invariant !inToken && end < |s| ==> Scanner(inString, inChar, inBrackets, escaped) == CLEAN
      invariant argv + Tokens(s[if inToken then start else end..]) == Tokens(s)
      decreases |s| - end, if start < |s| then 1 else 0, if inToken then 1 else 0
    {
      if !inToken {
        SkipsSpan(s, end);
        end := end + Span(s[end..]);
        start := end;
        inToken := true;
        if end < |s| {
          ScanningStarts(s, start);
        }
      }
      var atEnd := end == |s|;
      var c := if atEnd then '\0' else s[end];
      if !atEnd && !Ends(Scanner(inString, inChar, inBrackets, escaped), c) {
        ScanningGoesOn(s, start, end, Scanner(inString, inChar, inBrackets, escaped));
      }
      if !atEnd && c == '"' && !inChar && !escaped {
        inString := !inString;
      } else if !atEnd && c == '\'' && !inString && !escaped {
        inChar := !inChar;
      } else if !atEnd && c == '[' && !inString && !inChar && !inBrackets && !escaped {
        inBrackets := true;
      } else if !atEnd && c == ']' && !inString && !inChar && inBrackets && !escaped {
        inBrackets := false;
      } else if !atEnd && c == '\\' {
        escaped := !escaped;
      } else if atEnd || (!inString && !inChar && !inBrackets && !escaped && IsSpace(c)) {
        if end - start > 0 {
          ScanningEnds(s, start, end, Scanner(inString, inChar, inBrackets, escaped));
          argv := argv + [s[start..end]];
        }
        inToken := false;
        escaped := false;
        continue;
      }
      if c != '\\' {
        escaped := false;
      }
      end := end + 1;
    }
    TokensEmpty(s[if inToken then start else end..]);
  }

  function JoinedLength(ts: seq<string>): nat {
    if ts == [] then 0 else JoinedLength(ts[..|ts| - 1]) + |ts[|ts| - 1]| + 1
  }

  /** The buffer of join_args after some arguments: each with a space behind it. */
  function Spaced(ts: seq<string>): (r: string)
    ensures |r| == JoinedLength(ts)
  {
    if ts == [] then "" else Spaced(ts[..|ts| - 1]) + ts[|ts| - 1] + " "
  }

  lemma {:induction false} SpacedIsJoin(ts: seq<string>)
    requires ts != []
    ensures Spaced(ts) == Join(ts) + " "
  {
    if |ts| > 1 {
      var init, last := ts[..|ts| - 1], ts[|ts| - 1];
      SpacedIsJoin(init);
      JoinOneMore(init, last);
      assert ts == init + [last];
    } else {
      assert ts[..0] == [];
    }
  }

  lemma {:induction false} JoinOneMore(ts: seq<string>, t: string)
    requires ts != []
    ensures Join(ts + [t]) == Join(ts) + " " + t
  {
    assert (ts + [t])[1..] == ts[1..] + [t];
    if |ts| > 1 {
      JoinOneMore(ts[1..], t);
    }
  }

  lemma {:induction false} JoinedLengthGrows(ts: seq<string>, i: nat)
    requires i < |ts|
    ensures JoinedLength(ts[..i]) + |ts[i]| + 1 == JoinedLength(ts[..i + 1]) <= JoinedLength(ts)
    decreases |ts|
  {
    assert ts[..i + 1][..i] == ts[..i];
    if i < |ts| - 1 {
      var init := ts[..|ts| - 1];
      JoinedLengthGrows(init, i);
      assert init[..i + 1] == ts[..i + 1];
    } else {
      assert ts[..i + 1] == ts;
    }
  }

  method StrCpy(res: array<char>, at: nat, t: string)
    requires at + |t| <= res.Length
    modifies res
    ensures res[..at] == old(res[..at]) && res[at..at + |t|] == t
  {
    for j := 0 to |t|
      invariant res[..at] == old(res[..at]) && res[at..at + j] == t[..j]
    {
      res[at + j] := t[j];
    }
  }

  /** How long the buffer must be. */
  method CountChars(argv: seq<string>) returns (len: nat)
    ensures len == JoinedLength(argv)
  {
    len := 0;
    for i := 0 to |argv|
      invariant len == JoinedLength(argv[..i])
    {
      assert argv[..i + 1][..i] == argv[..i];
      len := len + |argv[i]| + 1;
    }
    assert argv[..|argv|] == argv;
  }

  /** Copies one argument and a space. */
  method AppendArg(res: array<char>, at: nat, t: string)
    requires at + |t| < res.Length
    modifies res
    ensures res[..at + |t| + 1] == old(res[..at]) + t + " "
  {
    StrCpy(res, at, t);
    res[at + |t|] := ' ';
    assert res[..at + |t| + 1] == res[..at] + res[at..at + |t|] + [res[at + |t|]];
  }

  /** The copied characters and the final zero of the buffer. */
  method JoinArgs(argv: seq<string>) returns (res: array<char>)
    requires argv != []
    ensures res.Length > 0 && res[..res.Length - 1] == Join(argv) && res[res.Length - 1] == '\0'
  {
    var size := CountChars(argv);
    res := new char[size];
    var len: nat := 0;
    for i := 0 to |argv|
      invariant len == JoinedLength(argv[..i]) <= res.Length == JoinedLength(argv)
      invariant res[..len] == Spaced(argv[..i])
    {
      JoinedLengthGrows(argv, i);
      assert argv[..i + 1][..i] == argv[..i];
      AppendArg(res, len, argv[i]);
      len := len + |argv[i]| + 1;
    }
    assert argv[..|argv|] == argv;
    SpacedIsJoin(argv);
    assert res[..len] == Join(argv) + " ";
    hide Join, Spaced, JoinedLength;
    res[len - 1] := '\0';
    assert res[..len - 1] == Join(argv);
  }
}
