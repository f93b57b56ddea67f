/**
 The commands the client library prints, and what the parser reads them as.
 */
module Sdk {
  import opened Base
  import opened Eql

  function PrintWrite(id: string, tier: Tier, payload: string): string {
    "WRITE " + (id + (" TIER " + (tier.Name() + (" " + payload))))
  }

  function PrintRead(id: string): string {
    "READ " + id
  }

  function PrintDelete(id: string): string {
    "DELETE " + id
  }

  function PrintList(filter: Option<Tier>): string {
    if filter.None? then "LIST" else "LIST TIER " + filter.value.Name()
  }

  lemma KeywordPrinted(k: string, rest: string)
    requires forall i | 0 <= i < |k| :: Upper(k[i]) == k[i]
    ensures Keyword(k, k + rest) == Some(rest)
  {
    hide Upper;
    assert (k + rest)[|k|..] == rest;
    assert forall i | 0 <= i < |k| :: (k + rest)[i] == k[i];
  }

  lemma SpaceSkipped(s: string)
    requires s != "" && !IsBlank(s[0])
    ensures Skip(" " + s) == s && Skip(s) == s
  {
    assert (" " + s)[1..] == s;
  }

  lemma {:induction false} RunPrinted(p: string, rest: string, c: char -> bool)
    requires forall i | 0 <= i < |p| :: c(p[i])
    requires rest != "" ==> !c(rest[0])
    ensures Run(p + rest, c) == |p|
  {
    if p == "" {
      assert p + rest == rest;
    } else {
      assert (p + rest)[1..] == p[1..] + rest;
      RunPrinted(p[1..], rest, c);
    }
  }

  lemma IdPrinted(id: string, rest: string)
    requires Grammatical(id) && (rest != "" ==> !IsIdChar(rest[0]))
    ensures Id(id + rest) == Some((id, rest))
  {
    RunPrinted(id, rest, IsIdChar);
    assert (id + rest)[..|id|] == id && (id + rest)[|id|..] == rest;
  }

  lemma TierPrinted(tier: Tier, rest: string)
    ensures TierWord(tier.Name() + rest) == Some((tier, rest))
    ensures tier.Name() + rest != "" && !IsBlank((tier.Name() + rest)[0])
  {
    match tier
    case Critical =>
      KeywordPrinted("CRITICAL", rest);
    case Personal =>
      assert ("PERSONAL" + rest)[0] == 'P';
      KeywordPrinted("PERSONAL", rest);
    case Noise =>
      assert ("NOISE" + rest)[0] == 'N';
      KeywordPrinted("NOISE", rest);
  }

  lemma PayloadPrinted(p: string)
    requires p != "" && OneLine(p)
    ensures Payload(p) == Some((p, ""))
  {
    assert p + "" == p;
    RunPrinted(p, "", x => !IsNewline(x));
  }

  lemma BlankIsSpace(x: char)
    ensures IsBlank(x) || IsNewline(x) ==> IsSpace(x)
    ensures IsIdChar(x) ==> !IsSpace(x)
  {
  }

  lemma EmptySkipped()
    ensures Skip("") == ""
  {
  }

  predicate KeywordsUpper() {
    forall k | k in {"WRITE", "TIER", "READ", "DELETE", "LIST"} :: forall i | 0 <= i < |k| :: Upper(k[i]) == k[i]
  }

  lemma KeywordsAreUpper()
    ensures KeywordsUpper()
  {
  }

  /** The tier clause of a WRITE, without what follows. */
  function TierClause(s: string): Match<Tier> {
    var word := Keyword("TIER", s);
    if word.None? then None else TierWord(Skip(word.value))
  }

  // ---- White space at the end --------------------------------------------

  lemma {:induction false} TrimEndAppend(a: string, b: string)
    ensures TrimEnd(a + b) == if TrimEnd(b) != "" then a + TrimEnd(b) else TrimEnd(a)
    decreases |b|
  {
    if b == "" {
      assert a + b == a;
    } else {
      var n := |b| - 1;
      assert a + b == (a + b[..n]) + [b[n]];
      assert (a + b)[..|a + b| - 1] == a + b[..n];
      if IsSpace(b[n]) {
        TrimEndAppend(a, b[..n]);
      }
    }
  }

  lemma Untrimmed(s: string)
    requires s != "" && !IsSpace(s[|s| - 1])
    ensures TrimEnd(s) == s
  {
  }

  /** What the parser sees of a command: white space at its end is gone. */
  lemma CommandTrimmed(k: string, s: string)
    requires k in {"WRITE", "READ", "DELETE"}
    ensures Skip(TrimEnd(TrimStart(k + " " + s))) == k + if TrimEnd(s) != "" then " " + TrimEnd(s) else ""
  {
    hide TrimEnd, IsSpace, IsBlank;
    var input := k + " " + s;
    BlankIsSpace(k[0]);
    assert input[0] == k[0];
    assert TrimStart(input) == input by { Untouched(input); }
    TrimEndAppend(k + " ", s);
    assert TrimEnd(" ") == "" by { OneSpace(); }
    TrimEndAppend(k, " ");
    assert TrimEnd(k) == k by { BlankIsSpace(k[|k| - 1]); Untrimmed(k); }
    assert k + " " + TrimEnd(s) == k + (" " + TrimEnd(s));
    var t := TrimEnd(input);
    assert t[0] == k[0];
    Untouched(t);
  }

  lemma Untouched(s: string)
    requires s != "" && !IsSpace(s[0])
    ensures TrimStart(s) == s && Skip(s) == s
  {
    BlankIsSpace(s[0]);
  }

  lemma OneSpace()
    ensures TrimEnd(" ") == ""
  {
    assert " "[..0] == "";
  }

  // ---- What a printed WRITE becomes --------------------------------------

  /** What is left, after TIER, of a printed command whose white space at the end is gone. */
  function AfterTier(tier: Tier, payload: string): string {
    tier.Name() + Given(payload)
  }

  function Given(payload: string): string {
    if TrimEnd(payload) == "" then "" else " " + TrimEnd(payload)
  }

  function TrimmedTail(tier: Tier, payload: string): string {
    " " + ("TIER" + (" " + AfterTier(tier, payload)))
  }

  /**
   What a printed WRITE becomes, read off its id and payload: blanks around the id
   and white space around the payload are lost, and a tier clause inside the id takes
   the place of the one that was printed, which then belongs to the payload.
   */
  function Reading(id: string, tier: Tier, payload: string): Result<Statement, ParseError> {
    var m := Id(Skip(id));
    if m.None? then Failure(Syntax)
    else
      var v, t := Skip(m.value.1), TrimEnd(payload);
      if v == "" then
        if t != "" && OneLine(t) then Success(Write(m.value.0, tier, Skip(t), false)) else Failure(Syntax)
      else
        var clause := TierClause(v);
        if clause.None? then Failure(Syntax)
        else
          var p := Skip(clause.value.1 + TrimmedTail(tier, payload));
          if OneLine(p) then Success(Write(m.value.0, clause.value.0, p, false)) else Failure(Syntax)
  }

  lemma {:induction false} SkipAppend(s: string, tail: string)
    ensures Skip(s + tail) == if Skip(s) != "" then Skip(s) + tail else Skip(tail)
  {
    if s == "" {
      assert s + tail == tail;
    } else if IsBlank(s[0]) {
      SkipAppend(s[1..], tail);
      assert (s + tail)[1..] == s[1..] + tail;
    }
  }

  lemma {:induction false} RunAppend(s: string, tail: string, c: char -> bool)
    requires tail != "" && !c(tail[0])
    ensures Run(s + tail, c) == Run(s, c)
  {
    if s == "" {
      assert s + tail == tail;
    } else if c(s[0]) {
      RunAppend(s[1..], tail, c);
      assert (s + tail)[1..] == s[1..] + tail;
    }
  }

  predicate AfterBlank(tail: string) {
    tail != "" && tail[0] == ' '
  }

  predicate NoBlank(k: string) {
    ' ' !in k
  }

  /** A match does not notice what follows a blank. */
  function Followed<T>(m: Match<T>, tail: string): Match<T> {
    if m.None? then None else Some((m.value.0, m.value.1 + tail))
  }

  lemma IdAppend(s: string, tail: string)
    requires AfterBlank(tail)
    ensures Id(s + tail) == Followed(Id(s), tail)
  {
    RunAppend(s, tail, IsIdChar);
    if s == "" {
      assert s + tail == tail;
    } else {
      var n := Run(s, IsIdChar);
      assert (s + tail)[..n] == s[..n] && (s + tail)[n..] == s[n..] + tail;
    }
  }

  lemma KeywordAppend(k: string, s: string, tail: string)
    requires AfterBlank(tail) && NoBlank(k)
    ensures Keyword(k, s + tail) == if Keyword(k, s).Some? then Some(Keyword(k, s).value + tail) else None
  {
    if |k| <= |s| {
      assert forall i | 0 <= i < |k| :: (s + tail)[i] == s[i];
      assert (s + tail)[|k|..] == s[|k|..] + tail;
    } else if |k| <= |s + tail| {
      assert Upper((s + tail)[|s|]) == ' ' && k[|s|] in k;
    }
  }

  lemma TierWordAppend(s: string, tail: string)
    requires AfterBlank(tail)
    ensures TierWord(s + tail) == Followed(TierWord(s), tail)
  {
    hide Keyword;
    KeywordAppend("CRITICAL", s, tail);
    KeywordAppend("PERSONAL", s, tail);
    KeywordAppend("NOISE", s, tail);
  }

  lemma TierClauseAppend(s: string, tier: Tier, payload: string)
    requires s != ""
    ensures TierClause(s + TrimmedTail(tier, payload)) == Followed(TierClause(s), TrimmedTail(tier, payload))
  {
    hide Keyword, TierWord, Skip;
    var tail := TrimmedTail(tier, payload);
    KeywordAppend("TIER", s, tail);
    if Keyword("TIER", s).Some? {
      var rest := Keyword("TIER", s).value;
      SkipAppend(rest, tail);
      TierWordAppend(Skip(rest), tail);
      TailIsNoTier(tier, payload);
      assert Skip(rest) == "" ==> TierWord(Skip(rest)) == None by { NoTier(); }
    }
  }

  lemma NoTier()
    ensures TierWord("") == None && Id("") == None
  {
  }

  /** The printed tail is skipped to its keyword, which is neither a tier nor followed by one as an id. */
  lemma TailIsNoTier(tier: Tier, payload: string)
    ensures Skip(TrimmedTail(tier, payload)) == "TIER" + (" " + AfterTier(tier, payload))
    ensures TierWord(Skip(TrimmedTail(tier, payload))) == None
  {
    hide AfterTier;
    var t := "TIER" + (" " + AfterTier(tier, payload));
    assert t[0] == 'T';
    SpaceSkipped(t);
  }

  /** The part of a WRITE after its keyword. */
  function Body(s: string): Match<Statement> {
    var id := Id(s);
    if id.None? then None
    else
      var clause := TierClause(Skip(id.value.1));
      if clause.None? then None
      else
        var payload := Payload(Skip(clause.value.1));
        if payload.None? then None
        else Some((Write(id.value.0, clause.value.0, payload.value.0, false), payload.value.1))
  }

  lemma WriteIsBody(s: string)
    ensures WriteStmt(s) == if Keyword("WRITE", s).None? then None else Body(Skip(Keyword("WRITE", s).value))
  {
    hide Keyword, Id, TierWord, Skip, Payload, AutoEmbedSuffix;
    var head := Keyword("WRITE", s);
    if head.Some? && Id(Skip(head.value)).Some? {
      var clause := TierClause(Skip(Id(Skip(head.value)).value.1));
      if clause.Some? && Payload(Skip(clause.value.1)).Some? {
        NothingAfterPayload(Skip(clause.value.1));
      }
    }
  }

  lemma BodyReads(id: string, tier: Tier, payload: string)
    ensures var b := Body(Skip(id + TrimmedTail(tier, payload)));
      Reading(id, tier, payload) == if b.Some? && b.value.1 == "" then Success(b.value.0) else Failure(Syntax)
  {
    hide Skip, Id, TierClause, Payload, OneLine, TrimmedTail, TrimEnd;
    var tail := TrimmedTail(tier, payload);
    TailStart(tier, payload);
    SkipAppend(id, tail);
    if Skip(id) == "" {
      BlankId(tier, payload);
    } else {
      IdAppend(Skip(id), tail);
      var m := Id(Skip(id));
      if m.Some? {
        SkipAppend(m.value.1, tail);
        var v := Skip(m.value.1);
        if v == "" {
          PrintedClause(tier, payload);
          PayloadWhole(Skip(Given(payload)));
        } else {
          TierClauseAppend(v, tier, payload);
          var clause := TierClause(v);
          if clause.Some? {
            RestAsPayload(clause.value.1, tier, payload);
            PayloadWhole(Skip(clause.value.1 + tail));
          }
        }
      }
    }
  }

  lemma TailStart(tier: Tier, payload: string)
    ensures AfterBlank(TrimmedTail(tier, payload))
  {
    hide AfterTier;
  }

  /** With no id, the keyword is taken for one, and no second keyword follows. */
  lemma BlankId(tier: Tier, payload: string)
    ensures Id(Skip("")) == None && Body(Skip(TrimmedTail(tier, payload))) == None
  {
    hide Skip, Payload, TierWord, Given;
    var rest := AfterTier(tier, payload);
    TailIsNoTier(tier, payload);
    NoTier();
    EmptySkipped();
    assert Grammatical("TIER");
    IdPrinted("TIER", " " + rest);
    assert rest[0] in "CPN";
    SpaceSkipped(rest);
  }

  /** With an id alone, the printed clause is the one that is read. */
  lemma PrintedClause(tier: Tier, payload: string)
    ensures TierClause(Skip(TrimmedTail(tier, payload))) == Some((tier, Given(payload)))
    ensures Skip(Given(payload)) == Skip(TrimEnd(payload))
    ensures Skip(TrimEnd(payload)) != "" <==> TrimEnd(payload) != ""
    ensures OneLine(Skip(TrimEnd(payload))) <==> OneLine(TrimEnd(payload))
  {
    hide Skip, Keyword, TierWord, OneLine, Tier.Name, TrimEnd;
    var t := TrimEnd(payload);
    TailIsNoTier(tier, payload);
    KeywordsAreUpper();
    KeywordPrinted("TIER", " " + AfterTier(tier, payload));
    TierPrinted(tier, Given(payload));
    SpaceSkipped(AfterTier(tier, payload));
    BlankSkipped(t);
    EmptySkipped();
    SkipOneLine(t);
    TrimEndLast(payload);
    if t != "" {
      LastKept(t);
    }
  }

  lemma {:induction false} LastKept(s: string)
    requires s != "" && !IsSpace(s[|s| - 1])
    ensures Skip(s) != "" && Skip(s)[|Skip(s)| - 1] == s[|s| - 1]
  {
    hide IsSpace;
    BlankIsSpace(s[|s| - 1]);
    if IsBlank(s[0]) {
      LastKept(s[1..]);
    }
  }

  /** A payload reaches the end of the text exactly if the text is one line. */
  lemma PayloadWhole(p: string)
    ensures var m := Payload(p);
      (m.Some? && m.value.1 == "" <==> p != "" && OneLine(p)) && (m.Some? && m.value.1 == "" ==> m.value.0 == p)
  {
    hide Payload, OneLine, Skip, AutoEmbedSuffix;
    if Payload(p).Some? {
      var m := Payload(p).value;
      NothingAfterPayload(p);
      assert m.0 + "" == m.0;
    }
    if p != "" && OneLine(p) {
      PayloadPrinted(p);
    }
  }

  /** After a clause inside the id everything else is payload, if it is one line. */
  lemma RestAsPayload(rest: string, tier: Tier, payload: string)
    ensures Skip(rest + TrimmedTail(tier, payload)) != ""
  {
    hide Skip;
    SkipAppend(rest, TrimmedTail(tier, payload));
    TailIsNoTier(tier, payload);
  }

  /** Only its own statement matches what begins with a keyword. */
  lemma StartsLike(kind: Kind, s: string)
    requires Keyword(Head(kind), s).Some?
    ensures FirstMatch(GrammarOrder(), s) == Alternative(kind, s)
  {
    hide Alternative, Keyword, GrammarOrder, Upper, Head;
    if Alternative(kind, s).Some? {
      InGrammar(kind);
      FirstMatchIs(GrammarOrder(), kind, s);
    } else {
      forall other: Kind
        ensures Alternative(other, s).None?
      {
        if Alternative(other, s).Some? {
          AlternativeHead(other, s);
          HeadLength(other);
          HeadLength(kind);
          KeywordStart(Head(other), s);
          KeywordStart(Head(kind), s);
          HeadsApart(other, kind);
        }
      }
      NoMatch(GrammarOrder(), s);
    }
  }

  /** What any printed WRITE parses to, whatever its id and payload. */
  lemma PrintedWriteReads(id: string, tier: Tier, payload: string)
    ensures Parse(PrintWrite(id, tier, payload)) == Reading(id, tier, payload)
  {
    hide Skip, TrimEnd, TrimStart, WriteStmt, FirstMatch, GrammarOrder, Body, Reading, Keyword, Id, PrintWrite;
    hide TrimmedTail;
    var text := id + TrimmedTail(tier, payload);
    var seen := "WRITE" + (" " + text);
    WriteTrimmed(id, tier, payload);
    KeywordsAreUpper();
    KeywordPrinted("WRITE", " " + text);
    StartsLike(KWrite, seen);
    WriteIsBody(seen);
    BlankSkipped(text);
    BodyReads(id, tier, payload);
    EmptySkipped();
    if WriteStmt(seen).Some? {
      WriteHolds(seen);
      var rest := WriteStmt(seen).value.1;
      if rest != "" {
        NewlineNotBlank(rest);
      }
    }
  }

  lemma WriteTrimmed(id: string, tier: Tier, payload: string)
    ensures var input := PrintWrite(id, tier, payload);
      Skip(TrimEnd(TrimStart(input))) == "WRITE" + (" " + (id + TrimmedTail(tier, payload)))
  {
    hide Skip, TrimEnd, TrimStart, IsSpace, Tier.Name;
    var name := tier.Name();
    var head := id + (" TIER " + name);
    var s := head + (" " + payload);
    WriteText(id, name, payload);
    CommandTrimmed("WRITE", s);
    TrimEndAppend(head, " " + payload);
    TrimEndAppend(" ", payload);
    OneSpace();
    NameEnds(tier);
    assert head[|head| - 1] == name[|name| - 1];
    Untrimmed(head);
    TailText(id, name, Given(payload));
  }

  lemma WriteText(id: string, name: string, payload: string)
    ensures "WRITE " + (id + (" TIER " + (name + (" " + payload))))
         == "WRITE" + " " + ((id + (" TIER " + name)) + (" " + payload))
  {
  }

  lemma TailText(id: string, name: string, given: string)
    ensures (id + (" TIER " + name)) + given == id + (" " + ("TIER" + (" " + (name + given))))
  {
  }

  lemma NameEnds(tier: Tier)
    ensures tier.Name() != "" && !IsSpace(tier.Name()[|tier.Name()| - 1])
  {
  }

  lemma BlankSkipped(s: string)
    ensures Skip(" " + s) == Skip(s)
  {
    assert (" " + s)[1..] == s;
  }

  /**
   Parsing a printed WRITE gives back the same statement exactly when the id is
   grammatical and the payload is one line, nonempty, with no leading blank and no
   trailing white space.
   */
  lemma WriteRoundTrip(id: string, tier: Tier, payload: string)
    ensures Parse(PrintWrite(id, tier, payload)) == Success(Write(id, tier, payload, false))
       <==> Grammatical(id) && CleanPayload(payload)
  {
    hide Parse, Skip, TrimEnd, Grammatical, PrintWrite, IsSpace, Id;
    if Grammatical(id) && CleanPayload(payload) {
      PrintedWriteReads(id, tier, payload);
      GrammaticalAlone(id);
      Untrimmed(payload);
      SpaceSkipped(payload);
    } else if Parse(PrintWrite(id, tier, payload)).Success? && Parse(PrintWrite(id, tier, payload)).value.Write? {
      ParsedWrite(PrintWrite(id, tier, payload));
    }
  }

  lemma GrammaticalAlone(id: string)
    requires Grammatical(id)
    ensures Skip(id) == id && Id(id) == Some((id, "")) && Skip("") == ""
  {
    hide Id;
    BlankIsSpace(id[0]);
    assert id + "" == id;
    IdPrinted(id, "");
  }

  /**
   Ids and payloads that make a command which is read as another: an id with blanks
   around it, or followed by a tier clause, or a payload with white space around it.
   */
  predicate Misread(id: string, payload: string) {
    var m, t := Id(Skip(id)), TrimEnd(payload);
    !(Grammatical(id) && CleanPayload(payload)) && m.Some? && OneLine(t)
    && var v := Skip(m.value.1);
    (v == "" && t != "") || (TierClause(v).Some? && OneLine(TierClause(v).value.1))
  }

  /** A printed WRITE parses to another statement exactly for these ids and payloads. */
  lemma MisreadExactly(id: string, tier: Tier, payload: string)
    ensures var parsed := Parse(PrintWrite(id, tier, payload));
      Misread(id, payload) <==> parsed.Success? && parsed != Success(Write(id, tier, payload, false))
  {
    hide Parse, Skip, TierClause, OneLine, PrintWrite, TrimmedTail, Grammatical, Id, CleanPayload, TrimEnd;
    PrintedWriteReads(id, tier, payload);
    WriteRoundTrip(id, tier, payload);
    var m := Id(Skip(id));
    if m.Some? {
      var v := Skip(m.value.1);
      assert v == "" ==> TierClause(v).None? by { NoClause(); }
      if TierClause(v).Some? {
        OneLineRest(TierClause(v).value.1, tier, payload);
      }
    }
  }

  lemma NoClause()
    ensures TierClause("").None?
  {
  }

  lemma {:induction false} SkipOneLine(s: string)
    ensures OneLine(Skip(s)) <==> OneLine(s)
  {
    if s != "" && IsBlank(s[0]) {
      SkipOneLine(s[1..]);
      assert s == [s[0]] + s[1..];
    }
  }

  lemma OneLineRest(rest: string, tier: Tier, payload: string)
    ensures OneLine(Skip(rest + TrimmedTail(tier, payload))) <==> OneLine(rest) && OneLine(TrimEnd(payload))
  {
    hide Skip, OneLine, TrimmedTail, TrimEnd;
    SkipOneLine(rest + TrimmedTail(tier, payload));
    OneLineJoin(rest, TrimmedTail(tier, payload));
    TailOneLine(tier, payload);
  }

  lemma TailOneLine(tier: Tier, payload: string)
    ensures OneLine(TrimmedTail(tier, payload)) <==> OneLine(TrimEnd(payload))
  {
    hide OneLine, Tier.Name, TrimEnd;
    WordsOneLine(tier);
    OneLineJoin(" ", TrimEnd(payload));
    OneLineJoin(tier.Name(), Given(payload));
    OneLineJoin(" ", AfterTier(tier, payload));
    OneLineJoin("TIER", " " + AfterTier(tier, payload));
    OneLineJoin(" ", "TIER" + (" " + AfterTier(tier, payload)));
  }

  lemma OneLineJoin(a: string, b: string)
    ensures OneLine(a + b) <==> OneLine(a) && OneLine(b)
  {
    assert forall i | 0 <= i < |a| :: (a + b)[i] == a[i];
    assert forall i | 0 <= i < |b| :: (a + b)[|a| + i] == b[i];
  }

  lemma WordsOneLine(tier: Tier)
    ensures OneLine(tier.Name()) && OneLine(" ") && OneLine("TIER") && OneLine("")
  {
  }

  /** A tier inside the id wins over the tier asked for, which becomes payload. */
  lemma TierOverridden(id: string, inner: Tier, tier: Tier, payload: string)
    requires Grammatical(id)
    ensures Parse(PrintWrite(id + " TIER " + inner.Name(), tier, payload))
         == if OneLine(TrimEnd(payload)) then Success(Write(id, inner, "TIER " + AfterTier(tier, payload), false))
            else Failure(Syntax)
  {
    hide Parse, Skip, Keyword, TierWord, PrintWrite, Id, Tier.Name, TrimEnd, OneLine;
    var name := inner.Name();
    var clause := "TIER" + (" " + name);
    var text := id + (" " + clause);
    assert text == id + " TIER " + name;
    assert text[0] == id[0] && !IsBlank(id[0]) by { BlankIsSpace(id[0]); }
    SpaceSkipped(text);
    IdPrinted(id, " " + clause);
    SpaceSkipped(clause);
    KeywordsAreUpper();
    KeywordPrinted("TIER", " " + name);
    assert name + "" == name;
    TierPrinted(inner, "");
    SpaceSkipped(name);
    assert "" + TrimmedTail(tier, payload) == TrimmedTail(tier, payload);
    TailIsNoTier(tier, payload);
    assert "TIER" + (" " + AfterTier(tier, payload)) == "TIER " + AfterTier(tier, payload);
    SkipOneLine(TrimmedTail(tier, payload));
    TailOneLine(tier, payload);
    PrintedWriteReads(text, tier, payload);
  }

  /** The id a printed READ or DELETE names: blanks before it and white space after it are lost. */
  function Bare(id: string): string {
    Skip(TrimEnd(id))
  }

  /** The name a command holds, if nothing but a name follows its keyword. */
  function NamedAlone(k: string, s: string): Option<string> {
    var m := Named(k, s);
    if m.Some? && Skip(m.value.1) == "" then Some(m.value.0) else None
  }

  /** What a printed READ or DELETE names, whatever its id. */
  lemma NamedReads(k: string, id: string)
    requires k in {"READ", "DELETE"}
    ensures var seen := Skip(TrimEnd(TrimStart(k + " " + id)));
      Keyword(k, seen).Some? && NamedAlone(k, seen) == if Grammatical(Bare(id)) then Some(Bare(id)) else None
  {
    hide Keyword, Skip, Id, Upper, TrimEnd, TrimStart, Grammatical;
    var t := TrimEnd(id);
    CommandTrimmed(k, id);
    KeywordsAreUpper();
    assert k + "" == k;
    KeywordPrinted(k, "");
    KeywordPrinted(k, " " + t);
    EmptySkipped();
    BlankSkipped(t);
    NoTier();
    TrimEndLast(id);
    NoEmptyId();
    if t != "" {
      LastKept(t);
    }
    WholeId(Bare(id));
  }

  lemma NoEmptyId()
    ensures !Grammatical("")
  {
  }

  /** An id that reaches the end of a text with no white space at its end is all of it. */
  lemma WholeId(s: string)
    requires s != "" ==> !IsSpace(s[|s| - 1])
    ensures var m := Id(s);
      (m.Some? && Skip(m.value.1) == "" <==> Grammatical(s)) && (Grammatical(s) ==> m.Some? && m.value.0 == s)
  {
    hide Skip, Grammatical, IsSpace;
    EmptySkipped();
    if Grammatical(s) {
      GrammaticalAlone(s);
    }
    if Id(s).Some? {
      var (a, r) := Id(s).value;
      IdSuffix(s);
      assert s == a + r && a + "" == a;
      if r != "" {
        LastKept(r);
      }
    }
  }

  /** Parsing a printed READ or DELETE: the bare id is named, if it is one. */
  lemma PrintedNamedReads(id: string)
    ensures Parse(PrintRead(id)) == if Grammatical(Bare(id)) then Success(Read(Bare(id))) else Failure(Syntax)
    ensures Parse(PrintDelete(id)) == if Grammatical(Bare(id)) then Success(Delete(Bare(id))) else Failure(Syntax)
  {
    hide Skip, TrimEnd, TrimStart, Named, FirstMatch, GrammarOrder, Grammatical, Keyword, Bare;
    assert PrintRead(id) == "READ" + " " + id && PrintDelete(id) == "DELETE" + " " + id;
    NamedReads("READ", id);
    NamedReads("DELETE", id);
    StartsLike(KRead, Skip(TrimEnd(TrimStart(PrintRead(id)))));
    StartsLike(KDelete, Skip(TrimEnd(TrimStart(PrintDelete(id)))));
  }

  /** They parse to themselves exactly for grammatical ids, and name another record exactly for these. */
  lemma NamedRoundTrip(id: string)
    ensures Parse(PrintRead(id)) == Success(Read(id)) <==> Grammatical(id)
    ensures Parse(PrintDelete(id)) == Success(Delete(id)) <==> Grammatical(id)
    ensures Parse(PrintRead(id)).Success? && Parse(PrintRead(id)) != Success(Read(id))
       <==> Grammatical(Bare(id)) && !Grammatical(id)
    ensures Parse(PrintDelete(id)).Success? && Parse(PrintDelete(id)) != Success(Delete(id))
       <==> Grammatical(Bare(id)) && !Grammatical(id)
  {
    hide Parse, Skip, TrimEnd, Grammatical;
    PrintedNamedReads(id);
    if Grammatical(id) {
      assert id != "" && !IsSpace(id[|id| - 1]) by { GrammaticalEnd(id); }
      Untrimmed(id);
      GrammaticalAlone(id);
    }
  }

  lemma GrammaticalEnd(id: string)
    requires Grammatical(id)
    ensures id != "" && !IsSpace(id[|id| - 1])
  {
    BlankIsSpace(id[|id| - 1]);
  }

  lemma ListPrinted(filter: Option<Tier>)
    ensures ListStmt(PrintList(filter)) == Some((List(filter), ""))
  {
    hide Keyword, Skip, TierWord, Upper, Tier.Name;
    KeywordsAreUpper();
    if filter.None? {
      assert "LIST" + "" == "LIST";
      KeywordPrinted("LIST", "");
      EmptySkipped();
      assert Keyword("TIER", "").None? by { NoKeyword(); }
    } else {
      var name := filter.value.Name();
      var rest := "TIER" + (" " + name);
      assert PrintList(filter) == "LIST" + (" " + rest);
      assert name + "" == name;
      KeywordPrinted("LIST", " " + rest);
      SpaceSkipped(rest);
      KeywordPrinted("TIER", " " + name);
      TierPrinted(filter.value, "");
      SpaceSkipped(name);
    }
  }

  lemma NoKeyword()
    ensures Keyword("TIER", "").None?
  {
  }

  /** A printed LIST gives back its filter. */
  lemma ListRoundTrip(filter: Option<Tier>)
    ensures Parse(PrintList(filter)) == Success(List(filter))
  {
    hide Skip, TrimEnd, TrimStart, ListStmt, FirstMatch, GrammarOrder, IsSpace;
    var input := PrintList(filter);
    assert input != "" && input[0] == 'L' && IsIdChar(input[|input| - 1]);
    BlankIsSpace('L');
    BlankIsSpace(input[|input| - 1]);
    Untouched(input);
    Untrimmed(input);
    ListPrinted(filter);
    InGrammar(KList);
    FirstMatchIs(GrammarOrder(), KList, input);
    EmptySkipped();
  }
}
