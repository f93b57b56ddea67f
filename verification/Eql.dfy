/**
 The command language: the grammar's parsing expressions and the statements they
 build.

 A matcher takes the rest of the input and returns what it matched and what is
 left. Between the parts of a rule blanks are skipped; alternatives are ordered.
 */
module Eql {
  import opened Base

  datatype Tier = Critical | Personal | Noise {
    function Name(): string {
      match this
      case Critical => "CRITICAL"
      case Personal => "PERSONAL"
      case Noise => "NOISE"
    }
  }

  /** Numbers of vectors and similarities are kept as their literals. */
  datatype Statement =
    | Write(id: string, tier: Tier, payload: string, autoEmbed: bool)
    | Read(id: string)
    | List(filter: Option<Tier>)
    | Delete(id: string)
    | Audit(only: Option<string>)
    | Embed(id: string, embedding: seq<string>)
    | Search(query: seq<string>, limit: string, similarity: Option<string>)
    | AutoEmbed(id: string)

  datatype ParseError = Syntax | InvalidLimit

  type Match<+T> = Option<(T, string)>

  // ---- Terminals ---------------------------------------------------------

  predicate IsBlank(x: char) {
    x == ' ' || x == '\t'
  }

  predicate IsNewline(x: char) {
    x == '\n' || x == '\r'
  }

  predicate IsDigit(x: char) {
    '0' <= x <= '9'
  }

  predicate IsAlphanumeric(x: char) {
    IsDigit(x) || 'a' <= x <= 'z' || 'A' <= x <= 'Z'
  }

  predicate IsIdChar(x: char) {
    IsAlphanumeric(x) || x == '_' || x == '-' || x == ':'
  }

  function Upper(x: char): char {
    if 'a' <= x <= 'z' then x - 'a' + 'A' else x
  }

  /** Skip the blanks between two parts of a rule. */
  function Skip(s: string): (r: string)
    ensures r == "" || !IsBlank(r[0])
    ensures |r| <= |s|
  {
    if s != "" && IsBlank(s[0]) then Skip(s[1..]) else s
  }

  /** A keyword, in any case; nothing need follow it. */
  function Keyword(k: string, s: string): Option<string> {
    if |k| <= |s| && (forall i | 0 <= i < |k| :: Upper(s[i]) == k[i]) then Some(s[|k|..]) else None
  }

  /** The length of the longest prefix of characters of a class. */
  function Run(s: string, c: char -> bool): (n: nat)
    ensures n <= |s|
    ensures forall i | 0 <= i < n :: c(s[i])
    ensures n < |s| ==> !c(s[n])
  {
    if s == "" || !c(s[0]) then 0 else 1 + Run(s[1..], c)
  }

  function Id(s: string): Match<string> {
    if s == "" || !IsAlphanumeric(s[0]) then None
    else
      var n := Run(s, IsIdChar);
      Some((s[..n], s[n..]))
  }

  function TierWord(s: string): Match<Tier> {
    if Keyword("CRITICAL", s).Some? then Some((Critical, Keyword("CRITICAL", s).value))
    else if Keyword("PERSONAL", s).Some? then Some((Personal, Keyword("PERSONAL", s).value))
    else if Keyword("NOISE", s).Some? then Some((Noise, Keyword("NOISE", s).value))
    else None
  }

  /** Everything up to the end of the line, and at least one character. */
  function Payload(s: string): Match<string> {
    var n := Run(s, x => !IsNewline(x));
    if n == 0 then None else Some((s[..n], s[n..]))
  }

  function Digits(s: string): (r: Match<string>)
    ensures r.Some? ==> r.value.0 + r.value.1 == s && r.value.0 != ""
  {
    var n := Run(s, IsDigit);
    if n == 0 then None else Some((s[..n], s[n..]))
  }

  /** An optional sign, digits, and an optional fraction. */
  function Float(s: string): (r: Match<string>)
    ensures r.Some? ==> r.value.0 + r.value.1 == s && r.value.0 != ""
  {
    var sign := if s != "" && s[0] == '-' then 1 else 0;
    var whole := Digits(s[sign..]);
    if whole.None? then None
    else
      var rest := whole.value.1;
      var fraction := if rest != "" && rest[0] == '.' then Digits(rest[1..]) else None;
      var left := if fraction.Some? then fraction.value.1 else rest;
      assert s == s[..|s| - |left|] + left by { FloatSplit(s, sign, whole.value.0, rest, left); }
      Some((s[..|s| - |left|], left))
  }

  lemma FloatSplit(s: string, sign: nat, whole: string, rest: string, left: string)
    requires sign <= |s| && s[sign..] == whole + rest && whole != ""
    requires left == rest || (rest != "" && exists d: string :: d + left == rest[1..])
    ensures |left| < |s| && s == s[..|s| - |left|] + left
  {
    var head := s[..sign] + whole;
    assert s == head + rest;
    if left != rest {
      var d: string :| d + left == rest[1..];
      assert rest == [rest[0]] + (d + left);
      head := head + ([rest[0]] + d);
    }
    assert s == head + left;
  }

  predicate AllDigits(p: string) {
    p != "" && forall i | 0 <= i < |p| :: IsDigit(p[i])
  }

  /** Digits, and an optional point with more digits. */
  ghost predicate Unsigned(d: string) {
    AllDigits(d) || exists i | 0 < i < |d| :: d[i] == '.' && AllDigits(d[..i]) && AllDigits(d[i + 1..])
  }

  function Sign(p: string): nat {
    if p != "" && p[0] == '-' then 1 else 0
  }

  ghost predicate FloatLiteral(p: string) {
    Unsigned(p[Sign(p)..])
  }

  /** The digits and the fraction at the start of a text. */
  function NumberPrefix(u: string): string {
    var w := Run(u, IsDigit);
    if w > 0 && w < |u| && u[w] == '.' && Run(u[w + 1..], IsDigit) > 0 then u[..w + 1 + Run(u[w + 1..], IsDigit)]
    else u[..w]
  }

  lemma PrefixOf(u: string)
    ensures NumberPrefix(u) <= u
  {
  }

  lemma FloatLeaves(s: string)
    ensures |NumberPrefix(s[Sign(s)..])| <= |s| - Sign(s)
    ensures Float(s).Some? <==> NumberPrefix(s[Sign(s)..]) != ""
    ensures Float(s).Some? ==> Float(s).value.1 == s[Sign(s)..][|NumberPrefix(s[Sign(s)..])|..]
  {
    var u := s[Sign(s)..];
    var w := Run(u, IsDigit);
    if w > 0 && w < |u| {
      var rest := u[w + 1..];
      assert u[w..][1..] == rest;
      assert rest[Run(rest, IsDigit)..] == u[w + 1 + Run(rest, IsDigit)..];
    }
  }

  lemma FloatIs(s: string)
    ensures Float(s).Some? <==> NumberPrefix(s[Sign(s)..]) != ""
    ensures Float(s).Some? ==> Float(s).value.0 == s[..Sign(s)] + NumberPrefix(s[Sign(s)..])
  {
    hide Float, NumberPrefix;
    FloatLeaves(s);
    if Float(s).Some? {
      var u := s[Sign(s)..];
      var p := NumberPrefix(u);
      PrefixOf(u);
      assert s == (s[..Sign(s)] + p) + u[|p|..];
      SameHead(Float(s).value.0, s[..Sign(s)] + p, u[|p|..]);
    }
  }

  lemma SameHead(a: string, b: string, tail: string)
    requires a + tail == b + tail
    ensures a == b
  {
    assert a == (a + tail)[..|a|];
    assert b == (b + tail)[..|b|];
  }

  lemma NumberIsUnsigned(u: string)
    requires NumberPrefix(u) != ""
    ensures Unsigned(NumberPrefix(u))
  {
    var w, d := Run(u, IsDigit), NumberPrefix(u);
    if |d| > w {
      assert d[w] == '.' && d[..w] == u[..w] && d[w + 1..] == u[w + 1..][..|d| - w - 1];
    }
  }

  lemma NumberIsLongest(u: string, n: nat)
    requires n <= |u| && Unsigned(u[..n])
    ensures 0 < n <= |NumberPrefix(u)|
  {
    var d := u[..n];
    if AllDigits(d) {
      assert forall i | 0 <= i < n :: u[i] == d[i];
      RunReaches(u, n, IsDigit);
    } else {
      var i :| 0 < i < |d| && d[i] == '.' && AllDigits(d[..i]) && AllDigits(d[i + 1..]);
      assert d[..i] == u[..i] && d[i + 1..] == u[i + 1..n];
      FractionIsLongest(u, i, n);
    }
  }

  lemma FractionIsLongest(u: string, i: nat, n: nat)
    requires 0 < i < n <= |u| && u[i] == '.' && AllDigits(u[..i]) && AllDigits(u[i + 1..n])
    ensures n <= |NumberPrefix(u)|
  {
    hide Run;
    assert forall j | 0 <= j < i :: u[j] == u[..i][j];
    RunReaches(u, i, IsDigit);
    var rest := u[i + 1..];
    assert forall j | 0 <= j < n - i - 1 :: rest[j] == u[i + 1..n][j];
    RunReaches(rest, n - i - 1, IsDigit);
  }

  /** A run reaches over every prefix of characters of its class. */
  lemma RunReaches(s: string, n: nat, c: char -> bool)
    requires n <= |s| && forall i | 0 <= i < n :: c(s[i])
    ensures n <= Run(s, c)
  {
  }

  /** What is matched is a literal, and no prefix of the input is a longer one. */
  lemma FloatLongest(s: string)
    ensures Float(s).Some? ==> FloatLiteral(Float(s).value.0)
    ensures forall n | 0 <= n <= |s| && FloatLiteral(s[..n]) :: Float(s).Some? && n <= |Float(s).value.0|
  {
    hide Float, Unsigned, NumberPrefix;
    var u := s[Sign(s)..];
    FloatIs(s);
    if Float(s).Some? {
      NumberIsUnsigned(u);
      var m := Float(s).value.0;
      assert m[Sign(m)..] == NumberPrefix(u);
    }
    forall n | 0 <= n <= |s| && FloatLiteral(s[..n])
      ensures Float(s).Some? && n <= |Float(s).value.0|
    {
      NoUnsigned();
      var p := s[..n];
      assert n > 0 && p[Sign(p)..] == u[..n - Sign(s)];
      NumberIsLongest(u, n - Sign(s));
    }
  }

  lemma NoUnsigned()
    ensures !Unsigned("")
  {
  }

  /** The further floats of a vector; a comma that no float follows is left. */
  function MoreFloats(s: string): (r: (seq<string>, string))
    decreases |s|
  {
    if s == "" || s[0] != ',' then ([], s)
    else
      var next := Float(Skip(s[1..]));
      if next.None? then ([], s)
      else
        assert |next.value.1| < |Skip(s[1..])|;
        var more := MoreFloats(next.value.1);
        ([next.value.0] + more.0, more.1)
  }

  function Vector(s: string): Match<seq<string>> {
    if s == "" || s[0] != '[' then None
    else
      var first := Float(s[1..]);
      if first.None? then None
      else
        var more := MoreFloats(first.value.1);
        if more.1 == "" || more.1[0] != ']' then None else Some(([first.value.0] + more.0, more.1[1..]))
  }

  // ---- The eight statements ----------------------------------------------

  function WriteStmt(s: string): Match<Statement> {
    var head := Keyword("WRITE", s);
    if head.None? then None
    else
      var id := Id(Skip(head.value));
      if id.None? then None
      else
        var word := Keyword("TIER", Skip(id.value.1));
        if word.None? then None
        else
          var tier := TierWord(Skip(word.value));
          if tier.None? then None
          else
            var payload := Payload(Skip(tier.value.1));
            if payload.None? then None
            else
              var suffix := AutoEmbedSuffix(Skip(payload.value.1));
              var rest := if suffix.Some? then suffix.value else Skip(payload.value.1);
              Some((Write(id.value.0, tier.value.0, payload.value.0, suffix.Some?), rest))
  }

  function AutoEmbedSuffix(s: string): Option<string> {
    var auto := Keyword("AUTO", s);
    if auto.None? then None else Keyword("EMBED", Skip(auto.value))
  }

  /** A keyword followed by an id. */
  function Named(k: string, s: string): Match<string> {
    var head := Keyword(k, s);
    if head.None? then None else Id(Skip(head.value))
  }

  function ReadStmt(s: string): Match<Statement> {
    var m := Named("READ", s);
    if m.None? then None else Some((Read(m.value.0), m.value.1))
  }

  function ListStmt(s: string): Match<Statement> {
    var head := Keyword("LIST", s);
    if head.None? then None
    else
      var rest := Skip(head.value);
      var word := Keyword("TIER", rest);
      var tier := if word.Some? then TierWord(Skip(word.value)) else None;
      if tier.Some? then Some((List(Some(tier.value.0)), tier.value.1)) else Some((List(None), rest))
  }

  function DeleteStmt(s: string): Match<Statement> {
    var m := Named("DELETE", s);
    if m.None? then None else Some((Delete(m.value.0), m.value.1))
  }

  function AuditStmt(s: string): Match<Statement> {
    var head := Keyword("AUDIT", s);
    if head.None? then None
    else
      var rest := Skip(head.value);
      var id := Id(rest);
      if id.Some? then Some((Audit(Some(id.value.0)), id.value.1)) else Some((Audit(None), rest))
  }

  function EmbedStmt(s: string): Match<Statement> {
    var m := Named("EMBED", s);
    if m.None? then None
    else
      var v := Vector(Skip(m.value.1));
      if v.None? then None else Some((Embed(m.value.0, v.value.0), v.value.1))
  }

  function SearchStmt(s: string): Match<Statement> {
    var head := Keyword("SEARCH", s);
    if head.None? then None
    else
      var v := Vector(Skip(head.value));
      if v.None? then None
      else
        var word := Keyword("LIMIT", Skip(v.value.1));
        if word.None? then None
        else
          var limit := Digits(Skip(word.value));
          if limit.None? then None
          else
            var rest := Skip(limit.value.1);
            var similarity := SimilaritySuffix(rest);
            if similarity.Some? then
              Some((Search(v.value.0, limit.value.0, Some(similarity.value.0)), similarity.value.1))
            else Some((Search(v.value.0, limit.value.0, None), rest))
  }

  function SimilaritySuffix(s: string): Match<string> {
    var word := Keyword("SIMILARITY", s);
    if word.None? then None
    else
      var sign := Keyword(">", Skip(word.value));
      if sign.None? then None else Float(Skip(sign.value))
  }

  function AutoEmbedStmt(s: string): Match<Statement> {
    var head := Keyword("AUTO", s);
    if head.None? then None
    else
      var m := Named("EMBED", Skip(head.value));
      if m.None? then None else Some((AutoEmbed(m.value.0), m.value.1))
  }

  datatype Kind = KWrite | KRead | KList | KDelete | KAudit | KEmbed | KSearch | KAutoEmbed

  function Alternative(kind: Kind, s: string): Match<Statement> {
    match kind
    case KWrite => WriteStmt(s)
    case KRead => ReadStmt(s)
    case KList => ListStmt(s)
    case KDelete => DeleteStmt(s)
    case KAudit => AuditStmt(s)
    case KEmbed => EmbedStmt(s)
    case KSearch => SearchStmt(s)
    case KAutoEmbed => AutoEmbedStmt(s)
  }

  /** The first alternative that matches, in the order of the grammar. */
  function FirstMatch(kinds: seq<Kind>, s: string): Match<Statement> {
    if kinds == [] then None
    else if Alternative(kinds[0], s).Some? then Alternative(kinds[0], s)
    else FirstMatch(kinds[1..], s)
  }

  function GrammarOrder(): seq<Kind> {
    [KWrite, KRead, KList, KDelete, KAudit, KEmbed, KSearch, KAutoEmbed]
  }

  // ---- Parsing a command -------------------------------------------------

  /** Unicode white space, as `trim` removes it. */
  predicate IsSpace(x: char) {
    var n := x as int;
    9 <= n <= 13 || n in {0x20, 0x85, 0xA0, 0x1680, 0x2028, 0x2029, 0x202F, 0x205F, 0x3000} || 0x2000 <= n <= 0x200A
  }

  function TrimStart(s: string): string {
    if s != "" && IsSpace(s[0]) then TrimStart(s[1..]) else s
  }

  function TrimEnd(s: string): string {
    if s != "" && IsSpace(s[|s| - 1]) then TrimEnd(s[..|s| - 1]) else s
  }

  function Decimal(s: string): nat
    requires forall i | 0 <= i < |s| :: IsDigit(s[i])
  {
    if s == "" then 0
    else
      assert IsDigit(s[|s| - 1]);
      Decimal(s[..|s| - 1]) * 10 + (s[|s| - 1] as int - '0' as int)
  }

  const USIZE_LIMIT: nat := 0x1_0000_0000_0000_0000

  /** The limit of a search must fit a machine word; nothing else can be refused. */
  predicate LimitFits(statement: Statement) {
    statement.Search? ==>
      (forall i | 0 <= i < |statement.limit| :: IsDigit(statement.limit[i])) && Decimal(statement.limit) < USIZE_LIMIT
  }

  function Parse(input: string): Result<Statement, ParseError> {
    var m := FirstMatch(GrammarOrder(), Skip(TrimEnd(TrimStart(input))));
    if m.None? || Skip(m.value.1) != "" then Failure(Syntax)
    else if !LimitFits(m.value.0) then Failure(InvalidLimit)
    else Success(m.value.0)
  }

  // ---- At most one alternative -------------------------------------------

  function Head(kind: Kind): string {
    match kind
    case KWrite => "WRITE"
    case KRead => "READ"
    case KList => "LIST"
    case KDelete => "DELETE"
    case KAudit => "AUDIT"
    case KEmbed => "EMBED"
    case KSearch => "SEARCH"
    case KAutoEmbed => "AUTO"
  }

  lemma AlternativeHead(kind: Kind, s: string)
    requires Alternative(kind, s).Some?
    ensures Keyword(Head(kind), s).Some?
  {
    hide Id, Keyword, Payload, TierWord, Vector, Digits, Skip;
  }

  lemma KeywordStart(k: string, s: string)
    requires Keyword(k, s).Some? && |k| >= 4
    ensures |s| >= 4 && Upper(s[0]) == k[0] && Upper(s[1]) == k[1] && Upper(s[2]) == k[2]
  {
    hide Upper;
  }

  lemma HeadsApart(a: Kind, b: Kind)
    requires Head(a)[0] == Head(b)[0] && Head(a)[1] == Head(b)[1] && Head(a)[2] == Head(b)[2]
    ensures a == b
  {
  }

  /** No input matches two of the eight alternatives. */
  lemma OnlyOneMatches(a: Kind, b: Kind, s: string)
    requires Alternative(a, s).Some? && Alternative(b, s).Some?
    ensures a == b
  {
    hide Alternative, Keyword, Head, Upper;
    AlternativeHead(a, s);
    AlternativeHead(b, s);
    assert |Head(a)| >= 4 && |Head(b)| >= 4 by { HeadLength(a); HeadLength(b); }
    KeywordStart(Head(a), s);
    KeywordStart(Head(b), s);
    HeadsApart(a, b);
  }

  lemma HeadLength(kind: Kind)
    ensures |Head(kind)| >= 4
  {
  }

  lemma {:induction false} FirstMatchIs(kinds: seq<Kind>, kind: Kind, s: string)
    requires kind in kinds && Alternative(kind, s).Some?
    ensures FirstMatch(kinds, s) == Alternative(kind, s)
  {
    hide Alternative;
    if Alternative(kinds[0], s).Some? {
      OnlyOneMatches(kinds[0], kind, s);
    } else {
      assert kind in kinds[1..];
      FirstMatchIs(kinds[1..], kind, s);
    }
  }

  /** So the order of the alternatives does not matter. */
  lemma OrderOfAlternatives(order: seq<Kind>, s: string)
    requires forall kind: Kind :: kind in order
    ensures FirstMatch(order, s) == FirstMatch(GrammarOrder(), s)
  {
    hide Alternative;
    if kind: Kind :| Alternative(kind, s).Some? {
      FirstMatchIs(order, kind, s);
      InGrammar(kind);
      FirstMatchIs(GrammarOrder(), kind, s);
    } else {
      NoMatch(order, s);
      NoMatch(GrammarOrder(), s);
    }
  }

  lemma InGrammar(kind: Kind)
    ensures kind in GrammarOrder()
  {
    var place :=
      match kind
      case KWrite => 0 case KRead => 1 case KList => 2 case KDelete => 3
      case KAudit => 4 case KEmbed => 5 case KSearch => 6 case KAutoEmbed => 7;
    assert GrammarOrder()[place] == kind;
  }

  lemma {:induction false} NoMatch(kinds: seq<Kind>, s: string)
    requires forall kind: Kind :: Alternative(kind, s).None?
    ensures FirstMatch(kinds, s) == None
  {
    hide Alternative;
    if kinds != [] {
      NoMatch(kinds[1..], s);
    }
  }

  // ---- What a parsed write holds -----------------------------------------

  predicate Grammatical(id: string) {
    id != "" && IsAlphanumeric(id[0]) && forall i | 0 <= i < |id| :: IsIdChar(id[i])
  }

  predicate OneLine(p: string) {
    forall i | 0 <= i < |p| :: !IsNewline(p[i])
  }

  /** Nonempty, one line, no leading blank, no trailing white space. */
  predicate CleanPayload(p: string) {
    p != "" && OneLine(p) && !IsBlank(p[0]) && !IsSpace(p[|p| - 1])
  }

  predicate Suffix(r: string, s: string) {
    |r| <= |s| && s[|s| - |r|..] == r
  }

  lemma SuffixTransitive(a: string, b: string, c: string)
    requires Suffix(a, b) && Suffix(b, c)
    ensures Suffix(a, c)
  {
    assert c[|c| - |a|..] == c[|c| - |b|..][|b| - |a|..];
  }

  lemma {:induction false} SkipSuffix(s: string)
    ensures Suffix(Skip(s), s)
  {
    if s != "" && IsBlank(s[0]) {
      SkipSuffix(s[1..]);
      SuffixTransitive(Skip(s), s[1..], s);
    }
  }

  lemma KeywordSuffix(k: string, s: string)
    requires Keyword(k, s).Some?
    ensures Suffix(Keyword(k, s).value, s)
  {
    hide Upper;
  }

  /** A keyword, skipped blanks and all, leaves a suffix. */
  lemma KeywordSkipSuffix(k: string, s: string)
    requires Keyword(k, s).Some?
    ensures Suffix(Skip(Keyword(k, s).value), s)
  {
    hide Keyword, Skip, Suffix;
    KeywordSuffix(k, s);
    SkipSuffix(Keyword(k, s).value);
    SuffixTransitive(Skip(Keyword(k, s).value), Keyword(k, s).value, s);
  }

  lemma IdSuffix(s: string)
    requires Id(s).Some?
    ensures Grammatical(Id(s).value.0) && Suffix(Skip(Id(s).value.1), s)
  {
    hide Skip;
    var n := Run(s, IsIdChar);
    assert IsIdChar(s[0]);
    SkipSuffix(s[n..]);
    SuffixTransitive(Skip(s[n..]), s[n..], s);
  }

  lemma TierSuffix(s: string)
    requires TierWord(s).Some?
    ensures Suffix(Skip(TierWord(s).value.1), s)
  {
    hide Keyword, Skip, Suffix;
    if Keyword("CRITICAL", s).Some? {
      KeywordSkipSuffix("CRITICAL", s);
    } else if Keyword("PERSONAL", s).Some? {
      KeywordSkipSuffix("PERSONAL", s);
    } else {
      KeywordSkipSuffix("NOISE", s);
    }
  }

  /** After a payload there is nothing, or a newline; never an AUTO EMBED. */
  lemma NothingAfterPayload(s: string)
    requires Payload(s).Some?
    ensures var (p, rest) := Payload(s).value;
      p != "" && OneLine(p) && p + rest == s && Skip(rest) == rest && AutoEmbedSuffix(rest).None?
      && (rest != "" ==> IsNewline(rest[0]))
  {
  }

  /** A write holds a grammatical id and a payload that ends the text or the line. */
  lemma WriteHolds(s: string)
    requires WriteStmt(s).Some?
    ensures var (w, rest) := WriteStmt(s).value;
      w.Write? && !w.autoEmbed && Grammatical(w.id) && w.payload != "" && OneLine(w.payload) && !IsBlank(w.payload[0])
      && (rest != "" ==> IsNewline(rest[0])) && Suffix(w.payload + rest, s)
  {
    hide Keyword, Skip, Suffix, Id, TierWord, Payload, Grammatical, OneLine, AutoEmbedSuffix;
    var head := Keyword("WRITE", s).value;
    var id := Id(Skip(head)).value;
    var word := Keyword("TIER", Skip(id.1)).value;
    var tier := TierWord(Skip(word)).value;
    var text := Skip(tier.1);
    KeywordSkipSuffix("WRITE", s);
    IdSuffix(Skip(head));
    KeywordSkipSuffix("TIER", Skip(id.1));
    TierSuffix(Skip(word));
    NothingAfterPayload(text);
    SuffixTransitive(Skip(id.1), Skip(head), s);
    SuffixTransitive(Skip(word), Skip(id.1), s);
    SuffixTransitive(text, Skip(word), s);
    assert Payload(text).value.0[0] == text[0];
  }

  lemma {:induction false} TrimEndLast(s: string)
    ensures TrimEnd(s) != "" ==> !IsSpace(TrimEnd(s)[|TrimEnd(s)| - 1])
  {
    if s != "" && IsSpace(s[|s| - 1]) {
      TrimEndLast(s[..|s| - 1]);
    }
  }

  lemma NewlineNotBlank(s: string)
    requires s != "" && IsNewline(s[0])
    ensures Skip(s) == s
  {
  }

  lemma SuffixLast(p: string, s: string)
    requires Suffix(p, s) && p != ""
    ensures s != "" && p[|p| - 1] == s[|s| - 1]
  {
    assert p[|p| - 1] == s[|s| - |p|..][|p| - 1];
  }

  lemma OnlyWritesWrite(kind: Kind, s: string)
    requires Alternative(kind, s).Some? && Alternative(kind, s).value.0.Write?
    ensures Alternative(kind, s) == WriteStmt(s)
  {
    hide WriteStmt, Named, Keyword, Vector, Id, Skip, TierWord, Digits, SimilaritySuffix;
  }

  lemma {:induction false} WriteMatched(kinds: seq<Kind>, s: string)
    requires FirstMatch(kinds, s).Some? && FirstMatch(kinds, s).value.0.Write?
    ensures WriteStmt(s) == FirstMatch(kinds, s)
  {
    hide Alternative, WriteStmt;
    if Alternative(kinds[0], s).Some? {
      OnlyWritesWrite(kinds[0], s);
    } else {
      WriteMatched(kinds[1..], s);
    }
  }

  /** Every write the parser yields has a grammatical id, a clean payload and no automatic embedding. */
  lemma ParsedWrite(input: string)
    requires Parse(input).Success? && Parse(input).value.Write?
    ensures var w := Parse(input).value;
      Grammatical(w.id) && CleanPayload(w.payload) && !w.autoEmbed
  {
    hide FirstMatch, Skip, TrimEnd, WriteStmt, Grammatical, OneLine, Suffix, GrammarOrder;
    var t := TrimEnd(TrimStart(input));
    var s := Skip(t);
    WriteMatched(GrammarOrder(), s);
    WriteHolds(s);
    var (w, rest) := WriteStmt(s).value;
    if rest != "" {
      NewlineNotBlank(rest);
    }
    assert w.payload + "" == w.payload;
    SkipSuffix(t);
    SuffixTransitive(w.payload, s, t);
    SuffixLast(w.payload, t);
    TrimEndLast(TrimStart(input));
  }

  lemma NamedHolds(k: string, s: string)
    requires Named(k, s).Some?
    ensures Grammatical(Named(k, s).value.0)
  {
    hide Keyword, Skip, Id, Grammatical, Suffix;
    IdSuffix(Skip(Keyword(k, s).value));
  }

  lemma {:induction false} MatchedBy(kinds: seq<Kind>, s: string) returns (kind: Kind)
    requires FirstMatch(kinds, s).Some?
    ensures kind in kinds && Alternative(kind, s) == FirstMatch(kinds, s)
  {
    hide Alternative;
    kind := kinds[0];
    if Alternative(kind, s).None? {
      kind := MatchedBy(kinds[1..], s);
    }
  }

  /** Every read or delete the parser yields names a grammatical id. */
  lemma ParsedNamed(input: string)
    requires Parse(input).Success? && (Parse(input).value.Read? || Parse(input).value.Delete?)
    ensures Grammatical(Parse(input).value.id)
  {
    hide FirstMatch, Skip, TrimEnd, TrimStart, Named, Grammatical, GrammarOrder;
    hide Keyword, Vector, Payload, Id, TierWord, AutoEmbedSuffix;
    var s := Skip(TrimEnd(TrimStart(input)));
    var kind := MatchedBy(GrammarOrder(), s);
    if kind == KRead {
      NamedHolds("READ", s);
    } else if kind == KDelete {
      NamedHolds("DELETE", s);
    }
  }
}
