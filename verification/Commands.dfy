/**
 The statements the parser can build: exactly the well-formed ones, each of them from its
 own text.
 */
module Commands {
  import opened Base
  import opened Eql
  import opened Sdk

  ghost predicate Literals(v: seq<string>) {
    v != [] && forall i | 0 <= i < |v| :: FloatLiteral(v[i])
  }

  /** Ids are grammatical, payloads clean, vectors nonempty lists of literals, and limits digits. */
  ghost predicate WellFormed(s: Statement) {
    match s
    case Write(id, _, payload, autoEmbed) => Grammatical(id) && CleanPayload(payload) && !autoEmbed
    case Read(id) => Grammatical(id)
    case List(_) => true
    case Delete(id) => Grammatical(id)
    case Audit(only) => only.Some? ==> Grammatical(only.value)
    case Embed(id, v) => Grammatical(id) && Literals(v)
    case Search(query, limit, similarity) =>
      Literals(query) && AllDigits(limit) && (similarity.Some? ==> FloatLiteral(similarity.value))
    case AutoEmbed(id) => Grammatical(id)
  }

  // ---- Text of a statement -----------------------------------------------

  function MoreText(v: seq<string>, rest: string): string {
    if v == [] then "]" + rest else "," + (" " + (v[0] + MoreText(v[1..], rest)))
  }

  function VectorText(v: seq<string>, rest: string): string {
    "[" + if v == [] then "]" + rest else v[0] + MoreText(v[1..], rest)
  }

  function SimilarityText(similarity: Option<string>): string {
    if similarity.None? then "" else " " + ("SIMILARITY" + (" " + (">" + (" " + similarity.value))))
  }

  function Print(s: Statement): string {
    match s
    case Write(id, tier, payload, autoEmbed) => PrintWrite(id, tier, payload) + if autoEmbed then " AUTO EMBED" else ""
    case Read(id) => PrintRead(id)
    case List(filter) => PrintList(filter)
    case Delete(id) => PrintDelete(id)
    case Audit(only) => "AUDIT" + if only.None? then "" else " " + only.value
    case Embed(id, v) => "EMBED" + (" " + (id + (" " + VectorText(v, ""))))
    case Search(query, limit, similarity) =>
      "SEARCH" + (" " + VectorText(query, " " + ("LIMIT" + (" " + (limit + SimilarityText(similarity))))))
    case AutoEmbed(id) => "AUTO" + (" " + ("EMBED" + (" " + id)))
  }

  // ---- Numbers -----------------------------------------------------------

  predicate IsNumeric(x: char) {
    IsDigit(x) || x == '.' || x == '-'
  }

  lemma UnsignedChars(d: string)
    requires Unsigned(d)
    ensures d != "" && IsDigit(d[0]) && IsDigit(d[|d| - 1])
    ensures forall i | 0 <= i < |d| :: IsNumeric(d[i])
  {
    if !AllDigits(d) {
      var i :| 0 < i < |d| && d[i] == '.' && AllDigits(d[..i]) && AllDigits(d[i + 1..]);
      assert d[..i][0] == d[0] && d[i + 1..][|d| - i - 2] == d[|d| - 1];
      assert forall j | 0 <= j < i :: d[j] == d[..i][j];
      assert forall j | i < j < |d| :: d[j] == d[i + 1..][j - i - 1];
    }
  }

  /** A literal holds digits, points and signs alone, and ends with a digit. */
  lemma LiteralChars(f: string)
    requires FloatLiteral(f)
    ensures f != "" && IsNumeric(f[0]) && IsDigit(f[|f| - 1])
    ensures forall i | 0 <= i < |f| :: IsNumeric(f[i])
  {
    hide Unsigned, IsDigit;
    var d := f[Sign(f)..];
    UnsignedChars(d);
    assert f[|f| - 1] == d[|d| - 1];
    forall i | 0 <= i < |f|
      ensures IsNumeric(f[i])
    {
      assert i >= Sign(f) ==> f[i] == d[i - Sign(f)];
    }
  }

  lemma FloatPrinted(f: string, rest: string)
    requires FloatLiteral(f) && (rest != "" ==> !IsNumeric(rest[0]))
    ensures Float(f + rest) == Some((f, rest))
  {
    hide Float, FloatLiteral, IsNumeric;
    var s := f + rest;
    assert s[..|f|] == f;
    FloatLongest(s);
    var m := Float(s).value;
    LiteralChars(m.0);
    assert forall i | 0 <= i < |m.0| :: m.0[i] == s[i];
    assert rest != "" ==> s[|f|] == rest[0];
    assert m.0 == s[..|m.0|] && m.1 == s[|m.0|..];
  }

  lemma NumericNotBlank(x: char)
    ensures IsNumeric(x) ==> !IsBlank(x)
    ensures IsDigit(x) ==> !IsSpace(x)
  {
  }

  /** A literal after a blank is skipped to. */
  lemma FloatSkipped(f: string, rest: string)
    requires FloatLiteral(f) && (rest != "" ==> !IsNumeric(rest[0]))
    ensures Float(Skip(" " + (f + rest))) == Some((f, rest))
  {
    hide Float, FloatLiteral, Skip, IsNumeric, IsBlank;
    LiteralChars(f);
    NumericNotBlank(f[0]);
    assert (f + rest)[0] == f[0];
    SpaceSkipped(f + rest);
    FloatPrinted(f, rest);
  }

  // ---- Vectors -----------------------------------------------------------

  lemma MoreStart(v: seq<string>, rest: string)
    ensures MoreText(v, rest) != "" && !IsNumeric(MoreText(v, rest)[0])
  {
  }

  lemma {:induction false} MorePrinted(v: seq<string>, rest: string)
    requires forall i | 0 <= i < |v| :: FloatLiteral(v[i])
    ensures MoreFloats(MoreText(v, rest)) == (v, "]" + rest)
  {
    hide Float, FloatLiteral, Skip, IsNumeric;
    if v != [] {
      var s := MoreText(v, rest);
      var more := MoreText(v[1..], rest);
      assert s[1..] == " " + (v[0] + more);
      MoreStart(v[1..], rest);
      FloatSkipped(v[0], more);
      MorePrinted(v[1..], rest);
      assert v == [v[0]] + v[1..];
    }
  }

  lemma VectorPrinted(v: seq<string>, rest: string)
    requires Literals(v)
    ensures Eql.Vector(VectorText(v, rest)) == Some((v, rest))
  {
    hide Float, FloatLiteral, MoreFloats, MoreText, IsNumeric;
    var s, more := VectorText(v, rest), MoreText(v[1..], rest);
    assert s[1..] == v[0] + more;
    MoreStart(v[1..], rest);
    FloatPrinted(v[0], more);
    MorePrinted(v[1..], rest);
    assert ("]" + rest)[1..] == rest;
    assert v == [v[0]] + v[1..];
  }

  lemma {:induction false} MoreHolds(s: string)
    ensures forall i | 0 <= i < |MoreFloats(s).0| :: FloatLiteral(MoreFloats(s).0[i])
    decreases |s|
  {
    hide Float, FloatLiteral, Skip;
    if s != "" && s[0] == ',' && Float(Skip(s[1..])).Some? {
      var next := Float(Skip(s[1..])).value;
      FloatLongest(Skip(s[1..]));
      assert |next.1| < |Skip(s[1..])|;
      MoreHolds(next.1);
    }
  }

  lemma VectorHolds(s: string)
    requires Eql.Vector(s).Some?
    ensures Literals(Eql.Vector(s).value.0)
  {
    hide Float, FloatLiteral, MoreFloats;
    FloatLongest(s[1..]);
    MoreHolds(Float(s[1..]).value.1);
  }

  // ---- What is parsed is well formed -------------------------------------

  lemma DigitsHold(s: string)
    requires Digits(s).Some?
    ensures AllDigits(Digits(s).value.0)
  {
  }

  lemma OptionalIdHolds(s: string)
    requires Id(s).Some?
    ensures Grammatical(Id(s).value.0)
  {
    hide Id, Grammatical, Suffix, Skip;
    IdSuffix(s);
  }

  lemma SearchHolds(s: string)
    requires SearchStmt(s).Some?
    ensures SearchStmt(s).value.0.Search? && WellFormed(SearchStmt(s).value.0)
  {
    hide Keyword, Skip, Eql.Vector, Digits, Float, Literals, AllDigits, FloatLiteral;
    var head := Keyword("SEARCH", s).value;
    VectorHolds(Skip(head));
    var word := Keyword("LIMIT", Skip(Eql.Vector(Skip(head)).value.1)).value;
    DigitsHold(Skip(word));
    var rest := Skip(Digits(Skip(word)).value.1);
    if SimilaritySuffix(rest).Some? {
      FloatLongest(Skip(Keyword(">", Skip(Keyword("SIMILARITY", rest).value)).value));
    }
  }

  lemma OtherHolds(kind: Kind, s: string)
    requires kind in {KAudit, KEmbed, KSearch, KAutoEmbed} && Alternative(kind, s).Some?
    ensures var t := Alternative(kind, s).value.0;
      WellFormed(t) && (t.Audit? || t.Embed? || t.Search? || t.AutoEmbed?)
  {
    hide Keyword, Skip, Eql.Vector, Digits, Id, Grammatical, Literals, Named, SearchStmt;
    match kind
    case KAudit =>
      var rest := Skip(Keyword("AUDIT", s).value);
      if Id(rest).Some? {
        OptionalIdHolds(rest);
      }
    case KEmbed =>
      NamedHolds("EMBED", s);
      VectorHolds(Skip(Named("EMBED", s).value.1));
    case KSearch =>
      SearchHolds(s);
    case KAutoEmbed =>
      NamedHolds("EMBED", Skip(Keyword("AUTO", s).value));
  }

  lemma BasicKinds(kind: Kind, s: string)
    requires kind !in {KAudit, KEmbed, KSearch, KAutoEmbed} && Alternative(kind, s).Some?
    ensures var t := Alternative(kind, s).value.0; t.Write? || t.Read? || t.List? || t.Delete?
  {
    hide Keyword, Skip, Payload, Id, TierWord, Named, AutoEmbedSuffix;
  }

  /** Every statement the parser yields is well formed, and its limit fits a machine word. */
  lemma ParsedWellFormed(input: string)
    requires Parse(input).Success?
    ensures WellFormed(Parse(input).value) && LimitFits(Parse(input).value)
  {
    hide FirstMatch, Skip, TrimEnd, TrimStart, GrammarOrder, Alternative, Grammatical, CleanPayload, Literals;
    var s := Skip(TrimEnd(TrimStart(input)));
    var kind := MatchedBy(GrammarOrder(), s);
    if kind in {KAudit, KEmbed, KSearch, KAutoEmbed} {
      OtherHolds(kind, s);
    } else {
      BasicKinds(kind, s);
      if Parse(input).value.Write? {
        ParsedWrite(input);
      } else if !Parse(input).value.List? {
        ParsedNamed(input);
      }
    }
  }

  // ---- What is printed is parsed -----------------------------------------

  lemma UpperWord(k: string)
    requires k in {"AUDIT", "EMBED", "SEARCH", "AUTO", "LIMIT", "SIMILARITY", ">"}
    ensures forall i | 0 <= i < |k| :: Upper(k[i]) == k[i]
  {
  }

  /** A keyword and a blank before something are read. */
  lemma WordPrinted(k: string, s: string)
    requires k in {"AUDIT", "EMBED", "SEARCH", "AUTO", "LIMIT", "SIMILARITY", ">"}
    requires s != "" && !IsBlank(s[0])
    ensures Keyword(k, k + (" " + s)) == Some(" " + s) && Skip(" " + s) == s
  {
    hide Keyword, Upper, Skip;
    UpperWord(k);
    KeywordPrinted(k, " " + s);
    SpaceSkipped(s);
  }

  lemma NamedPrinted(id: string, rest: string)
    requires Grammatical(id) && (rest != "" ==> !IsIdChar(rest[0]))
    ensures Named("EMBED", "EMBED" + (" " + (id + rest))) == Some((id, rest))
  {
    hide Keyword, Skip, Id;
    IdNotBlank(id);
    assert (id + rest)[0] == id[0];
    WordPrinted("EMBED", id + rest);
    IdPrinted(id, rest);
  }

  lemma IdNotBlank(id: string)
    requires Grammatical(id)
    ensures id != "" && !IsBlank(id[0])
  {
  }

  lemma AuditPrinted(only: Option<string>)
    requires only.Some? ==> Grammatical(only.value)
    ensures AuditStmt(Print(Audit(only))) == Some((Audit(only), ""))
  {
    hide Keyword, Skip, Id, Grammatical;
    if only.None? {
      UpperWord("AUDIT");
      KeywordPrinted("AUDIT", "");
      EmptySkipped();
      NoTier();
    } else {
      IdNotBlank(only.value);
      WordPrinted("AUDIT", only.value);
      GrammaticalAlone(only.value);
    }
  }

  lemma EmbedPrinted(id: string, v: seq<string>)
    requires Grammatical(id) && Literals(v)
    ensures EmbedStmt(Print(Embed(id, v))) == Some((Embed(id, v), ""))
  {
    hide Named, Skip, Grammatical, Literals, Eql.Vector;
    var t := VectorText(v, "");
    NamedPrinted(id, " " + t);
    SpaceSkipped(t);
    VectorPrinted(v, "");
  }

  lemma AutoEmbedPrinted(id: string)
    requires Grammatical(id)
    ensures AutoEmbedStmt(Print(AutoEmbed(id))) == Some((AutoEmbed(id), ""))
  {
    hide Named, Keyword, Skip, Grammatical;
    var rest := "EMBED" + (" " + id);
    assert rest[0] == 'E';
    WordPrinted("AUTO", rest);
    assert id + "" == id;
    NamedPrinted(id, "");
  }

  lemma SimilarityPrinted(f: string)
    requires FloatLiteral(f)
    ensures SimilaritySuffix(Skip(SimilarityText(Some(f)))) == Some((f, ""))
    ensures SimilarityText(Some(f))[0] == ' '
  {
    hide Keyword, Skip, Float, FloatLiteral;
    var sign := ">" + (" " + f);
    var word := "SIMILARITY" + (" " + sign);
    assert word[0] == 'S' && sign[0] == '>';
    SpaceSkipped(word);
    WordPrinted("SIMILARITY", sign);
    UpperWord(">");
    KeywordPrinted(">", " " + f);
    assert f + "" == f;
    FloatSkipped(f, "");
  }

  lemma DigitsPrinted(limit: string, rest: string)
    requires AllDigits(limit) && (rest != "" ==> rest[0] == ' ')
    ensures Digits(limit + rest) == Some((limit, rest))
  {
    RunPrinted(limit, rest, IsDigit);
    assert (limit + rest)[..|limit|] == limit && (limit + rest)[|limit|..] == rest;
  }

  lemma NoSimilarity()
    ensures SimilaritySuffix("") == None
  {
  }

  lemma LimitPrinted(limit: string, rest: string)
    requires AllDigits(limit) && (rest != "" ==> rest[0] == ' ')
    ensures var s := " " + ("LIMIT" + (" " + (limit + rest)));
      Keyword("LIMIT", Skip(s)).Some? && Digits(Skip(Keyword("LIMIT", Skip(s)).value)) == Some((limit, rest))
  {
    hide Keyword, Skip, Digits;
    var number := limit + rest;
    assert number[0] == limit[0];
    var word := "LIMIT" + (" " + number);
    assert word[0] == 'L';
    SpaceSkipped(word);
    WordPrinted("LIMIT", number);
    DigitsPrinted(limit, rest);
  }

  lemma SearchPrinted(query: seq<string>, limit: string, similarity: Option<string>)
    requires WellFormed(Search(query, limit, similarity))
    ensures SearchStmt(Print(Search(query, limit, similarity))) == Some((Search(query, limit, similarity), ""))
  {
    hide Keyword, Skip, Digits, SimilaritySuffix, Literals, AllDigits, FloatLiteral, Eql.Vector, SimilarityText;
    var last := SimilarityText(similarity);
    var next := " " + ("LIMIT" + (" " + (limit + last)));
    var v := VectorText(query, next);
    WordPrinted("SEARCH", v);
    VectorPrinted(query, next);
    if similarity.Some? {
      SimilarityPrinted(similarity.value);
    } else {
      EmptySkipped();
      NoSimilarity();
      NoSimilarityText();
    }
    LimitPrinted(limit, last);
  }

  lemma NoSimilarityText()
    ensures SimilarityText(None) == ""
  {
  }

  // ---- Where the text of a statement ends --------------------------------

  predicate Ends(s: string) {
    s != "" && !IsSpace(s[|s| - 1])
  }

  lemma WordEnds()
    ensures Ends("]") && Ends("AUDIT")
  {
  }

  lemma EndsAppend(a: string, b: string)
    requires Ends(b)
    ensures Ends(a + b)
  {
    hide IsSpace;
    assert (a + b)[|a + b| - 1] == b[|b| - 1];
  }

  lemma {:induction false} MoreEnds(v: seq<string>, rest: string)
    requires rest == "" || Ends(rest)
    ensures Ends(MoreText(v, rest))
  {
    hide Ends;
    if v == [] {
      WordEnds();
      assert "]" + "" == "]";
      if rest != "" {
        EndsAppend("]", rest);
      }
    } else {
      MoreEnds(v[1..], rest);
      var more := MoreText(v[1..], rest);
      EndsAppend(v[0], more);
      EndsAppend(" ", v[0] + more);
      EndsAppend(",", " " + (v[0] + more));
    }
  }

  lemma VectorEnds(v: seq<string>, rest: string)
    requires v != [] && (rest == "" || Ends(rest))
    ensures Ends(VectorText(v, rest))
  {
    hide Ends, MoreText;
    MoreEnds(v[1..], rest);
    EndsAppend(v[0], MoreText(v[1..], rest));
    EndsAppend("[", v[0] + MoreText(v[1..], rest));
  }

  lemma IdEnds(id: string)
    requires Grammatical(id)
    ensures Ends(id)
  {
    hide IsSpace;
    GrammaticalEnd(id);
  }

  lemma LimitEnds(limit: string, similarity: Option<string>)
    requires AllDigits(limit) && (similarity.Some? ==> FloatLiteral(similarity.value))
    ensures Ends(limit + SimilarityText(similarity))
  {
    hide Ends, FloatLiteral, AllDigits;
    if similarity.None? {
      assert limit + "" == limit;
      DigitEnds(limit);
    } else {
      var f := similarity.value;
      LiteralChars(f);
      LastDigitEnds(f);
      EndsAppend(" ", f);
      EndsAppend(">", " " + f);
      EndsAppend(" ", ">" + (" " + f));
      EndsAppend("SIMILARITY", " " + (">" + (" " + f)));
      EndsAppend(" ", "SIMILARITY" + (" " + (">" + (" " + f))));
      EndsAppend(limit, SimilarityText(similarity));
    }
  }

  lemma DigitEnds(limit: string)
    requires AllDigits(limit)
    ensures Ends(limit)
  {
    hide Ends, IsDigit;
    LastDigitEnds(limit);
  }

  lemma LastDigitEnds(s: string)
    requires s != "" && IsDigit(s[|s| - 1])
    ensures Ends(s)
  {
    hide IsSpace, IsDigit;
    NumericNotBlank(s[|s| - 1]);
  }

  lemma PrintEnds(s: Statement)
    requires WellFormed(s) && (s.Audit? || s.Embed? || s.Search? || s.AutoEmbed?)
    ensures Ends(Print(s))
  {
    hide Ends, Grammatical, AllDigits, FloatLiteral, SimilarityText, VectorText;
    match s
    case Audit(only) =>
      if only.None? {
        WordEnds();
        assert "AUDIT" + "" == "AUDIT";
      } else {
        IdEnds(only.value);
        EndsAppend(" ", only.value);
        EndsAppend("AUDIT", " " + only.value);
      }
    case Embed(id, v) =>
      var t := VectorText(v, "");
      VectorEnds(v, "");
      EndsAppend(" ", t);
      EndsAppend(id, " " + t);
      EndsAppend(" ", id + (" " + t));
      EndsAppend("EMBED", " " + (id + (" " + t)));
    case Search(query, limit, similarity) =>
      var number := limit + SimilarityText(similarity);
      var next := " " + ("LIMIT" + (" " + number));
      LimitEnds(limit, similarity);
      EndsAppend(" ", number);
      EndsAppend("LIMIT", " " + number);
      EndsAppend(" ", "LIMIT" + (" " + number));
      VectorEnds(query, next);
      EndsAppend(" ", VectorText(query, next));
      EndsAppend("SEARCH", " " + VectorText(query, next));
    case AutoEmbed(id) =>
      IdEnds(id);
      EndsAppend(" ", id);
      EndsAppend("EMBED", " " + id);
      EndsAppend(" ", "EMBED" + (" " + id));
      EndsAppend("AUTO", " " + ("EMBED" + (" " + id)));
  }

  // ---- Keywords in any case ----------------------------------------------

  /** The same character, or the two cases of one letter. */
  predicate SameLetter(x: char, y: char) {
    || x == y
    || ('a' <= x <= 'z' && y as int == x as int - 32)
    || ('a' <= y <= 'z' && x as int == y as int - 32)
  }

  /** Texts that differ in the case of their first letters alone. */
  predicate SameButCase(n: nat, s: string, t: string) {
    n <= |s| == |t| && s[n..] == t[n..] && forall i | 0 <= i < n :: SameLetter(s[i], t[i])
  }

  lemma KeywordAnyCase(k: string, s: string, t: string)
    requires SameButCase(|k|, s, t) && forall i | 0 <= i < |k| :: Upper(k[i]) == k[i]
    ensures Keyword(k, s) == Keyword(k, t)
  {
    forall i | 0 <= i < |k|
      ensures Upper(s[i]) == Upper(t[i])
    {
      assert SameLetter(s[i], t[i]);
    }
  }

  lemma HeadUpper(kind: Kind)
    ensures forall i | 0 <= i < |Head(kind)| :: Upper(Head(kind)[i]) == Head(kind)[i]
  {
  }

  /** A command is read alike whatever the case of its first keyword. */
  lemma AnyCase(kind: Kind, s: string, t: string)
    requires Keyword(Head(kind), s).Some? && SameButCase(|Head(kind)|, s, t)
    ensures FirstMatch(GrammarOrder(), s) == FirstMatch(GrammarOrder(), t)
  {
    hide Keyword, SameButCase, GrammarOrder, Skip, Id, TierWord, Payload, Eql.Vector, Digits, SimilaritySuffix, Upper;
    HeadUpper(kind);
    KeywordAnyCase(Head(kind), s, t);
    StartsLike(kind, s);
    StartsLike(kind, t);
  }

  // ---- Limits ------------------------------------------------------------

  function TenTo(n: nat): nat {
    if n == 0 then 1 else 10 * TenTo(n - 1)
  }

  /** A limit is read as a decimal number: each digit counts ten times what the next one does. */
  lemma {:induction false} DecimalPlaces(a: string, b: string)
    requires forall i | 0 <= i < |a| :: IsDigit(a[i])
    requires forall i | 0 <= i < |b| :: IsDigit(b[i])
    ensures Decimal(a + b) == Decimal(a) * TenTo(|b|) + Decimal(b) && Decimal(b) < TenTo(|b|)
    ensures |b| == 1 ==> Decimal(b) == b[0] as int - '0' as int
    decreases |b|
  {
    hide IsDigit;
    if b == "" {
      assert a + b == a;
    } else {
      var n := |b| - 1;
      assert IsDigit(b[n]);
      DecimalPlaces(a, b[..n]);
      LastPlace(b);
      LastPlace(a + b);
      assert (a + b)[..|a| + n] == a + b[..n];
      Shift(Decimal(a), TenTo(n));
    }
  }

  lemma LastPlace(s: string)
    requires s != "" && forall i | 0 <= i < |s| :: IsDigit(s[i])
    ensures Decimal(s) == Decimal(s[..|s| - 1]) * 10 + (s[|s| - 1] as int - '0' as int)
    ensures 0 <= s[|s| - 1] as int - '0' as int < 10
  {
    assert IsDigit(s[|s| - 1]);
  }

  lemma Shift(a: int, p: int)
    ensures a * p * 10 == a * (10 * p)
  {
  }

  /** A limit of up to nineteen digits always fits, and any other exactly up to the largest machine word. */
  lemma LimitExactly(query: seq<string>, limit: string, similarity: Option<string>)
    requires AllDigits(limit)
    ensures LimitFits(Search(query, limit, similarity)) <==> Decimal(limit) <= 18446744073709551615
    ensures |limit| <= 19 ==> LimitFits(Search(query, limit, similarity))
  {
    hide IsDigit, TenTo, Decimal;
    DecimalPlaces("", limit);
    if |limit| <= 19 {
      TenToMonotone(|limit|, 19);
      NineteenDigits();
    }
  }

  lemma {:induction false} TenToMonotone(m: nat, n: nat)
    requires m <= n
    ensures TenTo(m) <= TenTo(n)
  {
    if m < n {
      TenToMonotone(m, n - 1);
    }
  }

  lemma NineteenDigits()
    ensures TenTo(19) < USIZE_LIMIT
  {
    assert TenTo(4) == 1_0000;
    assert TenTo(8) == 1_0000_0000;
    assert TenTo(12) == 1_0000_0000_0000;
    assert TenTo(16) == 1_0000_0000_0000_0000;
  }

  // ---- Round trip --------------------------------------------------------

  function KindOf(s: Statement): Kind {
    match s
    case Write(_, _, _, _) => KWrite
    case Read(_) => KRead
    case List(_) => KList
    case Delete(_) => KDelete
    case Audit(_) => KAudit
    case Embed(_, _) => KEmbed
    case Search(_, _, _) => KSearch
    case AutoEmbed(_) => KAutoEmbed
  }

  lemma Printed(s: Statement)
    requires WellFormed(s) && (s.Audit? || s.Embed? || s.Search? || s.AutoEmbed?)
    ensures Alternative(KindOf(s), Print(s)) == Some((s, ""))
    ensures Print(s) != "" && !IsSpace(Print(s)[0])
  {
    hide AuditStmt, EmbedStmt, SearchStmt, AutoEmbedStmt, Grammatical, AllDigits, FloatLiteral, VectorText, Literals;
    hide SimilarityText, CleanPayload;
    match s
    case Audit(only) => AuditPrinted(only);
    case Embed(id, v) => EmbedPrinted(id, v);
    case Search(query, limit, similarity) => SearchPrinted(query, limit, similarity);
    case AutoEmbed(id) => AutoEmbedPrinted(id);
  }

  /** The text of a well-formed AUDIT, EMBED, SEARCH or AUTO EMBED is read back; only a limit can be too large. */
  lemma OtherReads(s: Statement)
    requires WellFormed(s) && (s.Audit? || s.Embed? || s.Search? || s.AutoEmbed?)
    ensures Parse(Print(s)) == if LimitFits(s) then Success(s) else Failure(InvalidLimit)
  {
    hide Skip, TrimEnd, TrimStart, FirstMatch, GrammarOrder, Alternative, Print, WellFormed, KindOf, IsSpace, LimitFits;
    var input := Print(s);
    PrintEnds(s);
    Printed(s);
    Untrimmed(input);
    Untouched(input);
    InGrammar(KindOf(s));
    FirstMatchIs(GrammarOrder(), KindOf(s), input);
    EmptySkipped();
  }

  /** The text of a statement parses to it exactly when the statement is well formed and its limit fits. */
  lemma StatementRoundTrip(s: Statement)
    ensures Parse(Print(s)) == Success(s) <==> WellFormed(s) && LimitFits(s)
  {
    hide Parse, Grammatical, CleanPayload, PrintWrite, PrintRead, PrintDelete, PrintList;
    if Parse(Print(s)) == Success(s) {
      ParsedWellFormed(Print(s));
    } else if WellFormed(s) && LimitFits(s) {
      match s
      case Write(id, tier, payload, _) =>
        assert PrintWrite(id, tier, payload) + "" == PrintWrite(id, tier, payload);
        WriteRoundTrip(id, tier, payload);
      case Read(id) => NamedRoundTrip(id);
      case Delete(id) => NamedRoundTrip(id);
      case List(filter) => ListRoundTrip(filter);
      case _ => OtherReads(s);
    }
  }
}
