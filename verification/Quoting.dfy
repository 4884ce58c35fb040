/**
 * What quotes, brackets and escapes do to a command line: a grammar of tokens,
 * and that splitting takes exactly its tokens apart.
 */
module Quoting {
  import opened Args

  // ---------------------------------------------------------------------
  // The grammar
  // ---------------------------------------------------------------------

  /** Inside quotes: a character that stands for itself, or one behind a backslash. */
  datatype Inner = Plain(c: char) | Behind(c: char)

  /** Inside brackets: the same, or quoted text. */
  datatype Member = Bare(c: char) | Escaped(c: char) | Quoted(quote: char, inner: seq<Inner>)

  /** A token is made of members and bracketed text. */
  datatype Part = Single(member: Member) | Bracketed(members: seq<Member>)

  predicate IsQuote(c: char) { c == '"' || c == '\'' }

  /** Anything but the quote itself and the backslash; whitespace, brackets and the other quote are nothing special. */
  ghost predicate InnerOk(quote: char, i: Inner) { i.Plain? ==> i.c != quote && i.c != '\\' }

  ghost predicate InnersOk(quote: char, inner: seq<Inner>) {
    forall k :: 0 <= k < |inner| ==> InnerOk(quote, inner[k])
  }

  /** In brackets a bare character is anything but a quote, the backslash and the closing bracket; outside, but whitespace and the opening one. */
  ghost predicate MemberOk(inBrackets: bool, m: Member) {
    match m
    case Bare(c) => !IsQuote(c) && c != '\\' && if inBrackets then c != ']' else c != '[' && !IsSpace(c)
    case Escaped(c) => true
    case Quoted(quote, inner) => IsQuote(quote) && InnersOk(quote, inner)
  }

  ghost predicate MembersOk(members: seq<Member>) {
    forall k :: 0 <= k < |members| ==> MemberOk(true, members[k])
  }

  ghost predicate PartOk(p: Part) {
    match p
    case Single(m) => MemberOk(false, m)
    case Bracketed(members) => MembersOk(members)
  }

  ghost predicate PartsOk(parts: seq<Part>) { forall k :: 0 <= k < |parts| ==> PartOk(parts[k]) }

  function InnerText(i: Inner): string {
    match i
    case Plain(c) => [c]
    case Behind(c) => ['\\', c]
  }

  function InnersText(inner: seq<Inner>): string {
    if inner == [] then "" else InnerText(inner[0]) + InnersText(inner[1..])
  }

  function MemberText(m: Member): string {
    match m
    case Bare(c) => [c]
    case Escaped(c) => ['\\', c]
    case Quoted(quote, inner) => [quote] + InnersText(inner) + [quote]
  }

  function MembersText(members: seq<Member>): string {
    if members == [] then "" else MemberText(members[0]) + MembersText(members[1..])
  }

  function PartText(p: Part): string {
    match p
    case Single(m) => MemberText(m)
    case Bracketed(members) => "[" + MembersText(members) + "]"
  }

  function Text(parts: seq<Part>): string {
    if parts == [] then "" else PartText(parts[0]) + Text(parts[1..])
  }

  // ---------------------------------------------------------------------
  // The scanner on the grammar
  // ---------------------------------------------------------------------

  /** The scanner goes through the text without cutting it, from one state to another. */
  ghost predicate Passes(text: string, from: Scanner, to: Scanner) {
    TokenEnd(text, from) == |text| && StateAfter(text, from) == to
  }

  lemma {:induction false} PassesOn(a: string, b: string, from: Scanner, via: Scanner, to: Scanner)
    requires Passes(a, from, via) && Passes(b, via, to)
    ensures Passes(a + b, from, to)
  {
    TokenEndAppend(a, b, from);
    StateAfterAppend(a, b, from);
  }

  lemma {:induction false} StateAfterAppend(a: string, b: string, st: Scanner)
    ensures StateAfter(a + b, st) == StateAfter(b, StateAfter(a, st))
  {
    if a == "" {
      assert a + b == b;
    } else {
      assert (a + b)[1..] == a[1..] + b;
      StateAfterAppend(a[1..], b, Next(st, a[0]));
    }
  }

  lemma PassesNothing(st: Scanner)
    ensures Passes("", st, st)
  {
  }

  lemma PassesOne(c: char, st: Scanner)
    requires !Ends(st, c)
    ensures Passes([c], st, Next(st, c))
  {
    assert [c][1..] == "";
  }

  /** A backslash and what is behind it leave the scanner as it was. */
  lemma PassesEscape(c: char, st: Scanner)
    requires !st.escaped
    ensures Passes(['\\', c], st, st)
  {
    PassesOne('\\', st);
    PassesOne(c, st.(escaped := true));
    assert ['\\'] + [c] == ['\\', c];
    PassesOn(['\\'], [c], st, st.(escaped := true), st);
  }

  function Within(quote: char, st: Scanner): Scanner {
    if quote == '"' then st.(inString := true) else st.(inChar := true)
  }

  lemma {:induction false} PassesInners(quote: char, inner: seq<Inner>, st: Scanner)
    requires IsQuote(quote) && InnersOk(quote, inner) && !st.inString && !st.inChar && !st.escaped
    ensures Passes(InnersText(inner), Within(quote, st), Within(quote, st))
  {
    var quoted := Within(quote, st);
    if inner == [] {
      PassesNothing(quoted);
    } else {
      var i := inner[0];
      assert InnerOk(quote, i);
      if i.Plain? {
        PassesOne(i.c, quoted);
      } else {
        PassesEscape(i.c, quoted);
      }
      PassesInners(quote, inner[1..], st);
      PassesOn(InnerText(i), InnersText(inner[1..]), quoted, quoted, quoted);
    }
  }

  lemma PassesMember(m: Member, st: Scanner)
    requires !st.inString && !st.inChar && !st.escaped && MemberOk(st.inBrackets, m)
    ensures Passes(MemberText(m), st, st)
  {
    match m
    case Bare(c) => PassesOne(c, st);
    case Escaped(c) => PassesEscape(c, st);
    case Quoted(quote, inner) =>
      var quoted := Within(quote, st);
      PassesOne(quote, st);
      PassesInners(quote, inner, st);
      PassesOne(quote, quoted);
      PassesOn([quote], InnersText(inner), st, quoted, quoted);
      PassesOn([quote] + InnersText(inner), [quote], st, quoted, st);
  }

  lemma {:induction false} PassesMembers(members: seq<Member>, st: Scanner)
    requires MembersOk(members) && st == CLEAN.(inBrackets := true)
    ensures Passes(MembersText(members), st, st)
  {
    if members == [] {
      PassesNothing(st);
    } else {
      PassesMember(members[0], st);
      PassesMembers(members[1..], st);
      PassesOn(MemberText(members[0]), MembersText(members[1..]), st, st, st);
    }
  }

  lemma PassesPart(p: Part)
    requires PartOk(p)
    ensures Passes(PartText(p), CLEAN, CLEAN)
  {
    match p
    case Single(m) => PassesMember(m, CLEAN);
    case Bracketed(members) =>
      var inside := CLEAN.(inBrackets := true);
      PassesOne('[', CLEAN);
      PassesMembers(members, inside);
      PassesOne(']', inside);
      PassesOn("[", MembersText(members), CLEAN, inside, inside);
      PassesOn("[" + MembersText(members), "]", CLEAN, inside, CLEAN);
  }

  lemma {:induction false} PassesParts(parts: seq<Part>)
    requires PartsOk(parts)
    ensures Passes(Text(parts), CLEAN, CLEAN)
  {
    if parts == [] {
      PassesNothing(CLEAN);
    } else {
      assert PartOk(parts[0]);
      PassesPart(parts[0]);
      PassesParts(parts[1..]);
      PassesOn(PartText(parts[0]), Text(parts[1..]), CLEAN, CLEAN, CLEAN);
    }
  }

  // ---------------------------------------------------------------------
  // What splitting does
  // ---------------------------------------------------------------------

  lemma TextIsNotEmpty(parts: seq<Part>)
    requires parts != []
    ensures Text(parts) != ""
  {
  }

  /** Whatever quotes, brackets and escapes it is made of, a token of the grammar is one token, as it is written. */
  lemma PartsAreOneToken(parts: seq<Part>)
    requires parts != [] && PartsOk(parts)
    ensures Tokens(Text(parts)) == [Text(parts)]
  {
    TextIsNotEmpty(parts);
    PassesParts(parts);
    TokensOfOne(Text(parts));
  }

  /** Any whitespace ends it, and however much there is before the next token does not count. */
  lemma WhitespaceTakesApart(parts: seq<Part>, gap: string, rest: string)
    requires parts != [] && PartsOk(parts) && gap != "" && forall k :: 0 <= k < |gap| ==> IsSpace(gap[k])
    ensures Tokens(Text(parts) + gap + rest) == [Text(parts)] + Tokens(rest)
  {
    var t := Text(parts);
    TextIsNotEmpty(parts);
    PassesParts(parts);
    TokensOfMoreThan(t, gap + rest);
    assert t + (gap + rest) == t + gap + rest;
    WhitespaceIsSkipped(gap, rest);
  }

  lemma TokensOfMoreThan(t: string, rest: string)
    requires Whole(t) && StateAfter(t, CLEAN) == CLEAN && rest != "" && IsSpace(rest[0])
    ensures Tokens(t + rest) == [t] + Tokens(rest)
  {
    var s := t + rest;
    assert s[0] == t[0] && !IsSpace(t[0]);
    assert s[0..] == s;
    TokenEndAppend(t, rest, CLEAN);
    assert s[..|t|] == t && s[|t|..] == rest;
  }

  lemma {:induction false} WhitespaceIsSkipped(gap: string, rest: string)
    requires forall k :: 0 <= k < |gap| ==> IsSpace(gap[k])
    ensures Tokens(gap + rest) == Tokens(rest)
  {
    if gap == "" {
      assert gap + rest == rest;
    } else {
      var s := gap + rest;
      assert s[1..] == gap[1..] + rest && s[0] == gap[0];
      WhitespaceIsSkipped(gap[1..], rest);
      assert s[Span(s)..] == s[1..][Span(s[1..])..];
    }
  }

  /** A quote that is not closed takes everything up to the end. */
  lemma OpenQuoteTakesTheRest(parts: seq<Part>, quote: char, inner: seq<Inner>)
    requires PartsOk(parts) && IsQuote(quote) && InnersOk(quote, inner)
    ensures var t := Text(parts) + [quote] + InnersText(inner); Tokens(t) == [t]
  {
    var quoted := Within(quote, CLEAN);
    PassesParts(parts);
    PassesOne(quote, CLEAN);
    PassesInners(quote, inner, CLEAN);
    PassesOn(Text(parts), [quote], CLEAN, CLEAN, quoted);
    PassesOn(Text(parts) + [quote], InnersText(inner), CLEAN, quoted, quoted);
    TokensOfOne(Text(parts) + [quote] + InnersText(inner));
  }

  /** An opening bracket that is not closed does the same. */
  lemma OpenBracketTakesTheRest(parts: seq<Part>, members: seq<Member>)
    requires PartsOk(parts) && MembersOk(members)
    ensures var t := Text(parts) + "[" + MembersText(members); Tokens(t) == [t]
  {
    var inside := CLEAN.(inBrackets := true);
    PassesParts(parts);
    PassesOne('[', CLEAN);
    PassesMembers(members, inside);
    PassesOn(Text(parts), "[", CLEAN, CLEAN, inside);
    PassesOn(Text(parts) + "[", MembersText(members), CLEAN, inside, inside);
    TokensOfOne(Text(parts) + "[" + MembersText(members));
  }
}
