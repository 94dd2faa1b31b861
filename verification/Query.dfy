/** The Drive query printer, and a parser for what it prints. */
module Query {
  import opened Outcomes
  import opened DriveItems

  /** `s.replace(c, with)` for a one-character pattern. */
  function Replace(s: string, c: char, with: string): string {
    if s == "" then "" else (if s[0] == c then with else [s[0]]) + Replace(s[1..], c, with)
  }

  function EscapeQueryLiteral(value: string): string {
    Replace(Replace(value, '\\', "\\\\"), '\'', "\\'")
  }

  /** One pass, one character at a time. */
  function EscapeEach(value: string): string {
    if value == "" then "" else
      (if value[0] == '\\' || value[0] == '\'' then ['\\', value[0]] else [value[0]]) + EscapeEach(value[1..])
  }

  lemma {:induction false} ReplaceConcat(s: string, t: string, c: char, with: string)
    ensures Replace(s + t, c, with) == Replace(s, c, with) + Replace(t, c, with)
  {
    if s == "" {
      assert s + t == t;
    } else {
      assert (s + t)[1..] == s[1..] + t;
      ReplaceConcat(s[1..], t, c, with);
    }
  }

  /** The two chained replaces escape each character once: the second pass never
      touches what the first one wrote. */
  lemma {:induction false} EscapeIsPerCharacter(value: string)
    ensures EscapeQueryLiteral(value) == EscapeEach(value)
  {
    if value != "" {
      var head := if value[0] == '\\' then "\\\\" else [value[0]];
      ReplaceConcat(head, Replace(value[1..], '\\', "\\\\"), '\'', "\\'");
      EscapeIsPerCharacter(value[1..]);
      if value[0] == '\\' {
        assert head[1..] == "\\" && head[1..][1..] == "";
        assert Replace("", '\'', "\\'") == "" && Replace(head[1..], '\'', "\\'") == "\\";
        assert Replace(head, '\'', "\\'") == "\\" + "\\";
      } else {
        assert head[1..] == "";
        assert Replace(head[1..], '\'', "\\'") == "";
        assert Replace(head, '\'', "\\'") == if value[0] == '\'' then "\\'" else head;
      }
    }
  }

  function Quoted(value: string): string {
    "'" + EscapeQueryLiteral(value) + "'"
  }

  const PARENT_LIMIT := 400

  function ParentClauses(parentIds: seq<string>): string
    requires parentIds != []
  {
    var first := Quoted(parentIds[0]) + " in parents";
    if |parentIds| == 1 then first else first + " or " + ParentClauses(parentIds[1..])
  }

  function ParentsClause(parentIds: seq<string>): Result<string> {
    if parentIds == [] || |parentIds| > PARENT_LIMIT then Err(InvalidArgument)
    else Ok(ParentClauses(parentIds))
  }

  /** Two conditions of a query. */
  function And(first: string, others: string): string {
    first + (" and " + others)
  }

  function NotType(mimeType: string): string {
    "mimeType != '" + mimeType + "'"
  }

  /** The query of `search_items`. */
  function SearchQuery(parentIds: seq<string>, keywords: string): Result<string> {
    match ParentsClause(parentIds)
    case Err(e) => Err(e)
    case Ok(clause) =>
      Ok(And("(" + clause + ")",
             And("trashed = false",
                 And(NotType(FOLDER_MIME_TYPE),
                     And(NotType(SHORTCUT_MIME_TYPE), "fullText contains " + Quoted(keywords))))))
  }

  /** The query of `list_children`. */
  function ChildrenQuery(folderId: string): string {
    And(Quoted(folderId) + " in parents", And("trashed = false", NotType(SHORTCUT_MIME_TYPE)))
  }

  /** The query of `list_folders`. */
  function FoldersQuery(): string {
    And("mimeType = '" + FOLDER_MIME_TYPE + "'", "trashed = false")
  }

  // ---- Reading a query back: a backslash makes the next character literal, and an
  // ---- unescaped quote closes the literal.

  /** The rest of `s` after `token`. */
  function Expect(s: string, token: string): Option<string> {
    if token <= s then Some(s[|token|..]) else None
  }

  /** The body of a literal whose opening quote has been read, and what follows it. */
  function ParseBody(s: string): (r: Option<(string, string)>)
    ensures r.Some? ==> |r.value.1| < |s|
  {
    if s == "" then None
    else if s[0] == '\'' then Some(("", s[1..]))
    else if s[0] == '\\' then
      if |s| == 1 then None else
        match ParseBody(s[2..])
        case None => None
        case Some((value, rest)) => Some(([s[1]] + value, rest))
    else
      match ParseBody(s[1..])
      case None => None
      case Some((value, rest)) => Some(([s[0]] + value, rest))
  }

  function ParseLiteral(s: string): Option<(string, string)> {
    match Expect(s, "'")
    case None => None
    case Some(body) => ParseBody(body)
  }

  /** A disjunction of parent tests, and what follows it. */
  function ParseParents(s: string): (r: Option<(seq<string>, string)>)
    ensures r.Some? ==> |r.value.1| < |s|
    decreases |s|
  {
    match ParseLiteral(s)
    case None => None
    case Some((id, rest)) =>
      match Expect(rest, " in parents")
      case None => None
      case Some(tail) =>
        match Expect(tail, " or ")
        case None => Some(([id], tail))
        case Some(more) =>
          match ParseParents(more)
          case None => None
          case Some((ids, end)) => Some(([id] + ids, end))
  }

  /** One condition of a query. */
  datatype Term =
    | Under(ids: seq<string>)
    | Untrashed
    | TypeIs(mimeType: string)
    | TypeIsNot(mimeType: string)
    | Mentions(keywords: string)

  function ParseTerm(s: string): (r: Option<(Term, string)>)
    ensures r.Some? ==> |r.value.1| < |s|
  {
    if s == "" then None
    else if s[0] == '(' then
      match ParseParents(s[1..])
      case None => None
      case Some((ids, rest)) => Ended(Under(ids), Expect(rest, ")"))
    else if s[0] == '\'' then
      match ParseLiteral(s)
      case None => None
      case Some((id, rest)) => Ended(Under([id]), Expect(rest, " in parents"))
    else if Expect(s, "trashed = false").Some? then Ended(Untrashed, Expect(s, "trashed = false"))
    else if Expect(s, "mimeType = ").Some? then
      match ParseLiteral(Expect(s, "mimeType = ").value)
      case None => None
      case Some((value, rest)) => Some((TypeIs(value), rest))
    else if Expect(s, "mimeType != ").Some? then
      match ParseLiteral(Expect(s, "mimeType != ").value)
      case None => None
      case Some((value, rest)) => Some((TypeIsNot(value), rest))
    else if Expect(s, "fullText contains ").Some? then
      match ParseLiteral(Expect(s, "fullText contains ").value)
      case None => None
      case Some((value, rest)) => Some((Mentions(value), rest))
    else None
  }

  function Ended(term: Term, rest: Option<string>): Option<(Term, string)> {
    match rest
    case None => None
    case Some(tail) => Some((term, tail))
  }

  /** A whole query: conditions that must all hold. */
  function Parse(s: string): Option<seq<Term>>
    decreases |s|
  {
    match ParseTerm(s)
    case None => None
    case Some((term, rest)) =>
      if rest == "" then Some([term]) else
        match Expect(rest, " and ")
        case None => None
        case Some(more) =>
          match Parse(more)
          case None => None
          case Some(terms) => Some([term] + terms)
  }

  /** What a condition says of an item. What mentions what is Drive's affair. */
  ghost predicate Holds(term: Term, item: DriveItem, mentions: (DriveItem, string) -> bool) {
    match term
    case Under(ids) => exists parent :: parent in item.parents && parent in ids
    case Untrashed => !item.trashed
    case TypeIs(mimeType) => item.mimeType == mimeType
    case TypeIsNot(mimeType) => item.mimeType != mimeType
    case Mentions(keywords) => mentions(item, keywords)
  }

  ghost predicate Matches(terms: seq<Term>, item: DriveItem, mentions: (DriveItem, string) -> bool) {
    forall i :: 0 <= i < |terms| ==> Holds(terms[i], item, mentions)
  }

  lemma ExpectConcat(token: string, rest: string)
    ensures Expect(token + rest, token) == Some(rest)
  {
  }

  lemma {:induction false} EscapedBodyParses(value: string, rest: string)
    ensures ParseBody(EscapeEach(value) + "'" + rest) == Some((value, rest))
  {
    var s := EscapeEach(value) + "'" + rest;
    if value == "" {
      assert s[1..] == rest;
    } else {
      EscapedBodyParses(value[1..], rest);
      var tail := EscapeEach(value[1..]) + "'" + rest;
      if value[0] == '\\' || value[0] == '\'' {
        assert s[0] == '\\' && s[1] == value[0] && s[2..] == tail;
      } else {
        assert s[0] == value[0] && s[1..] == tail;
      }
      assert value == [value[0]] + value[1..];
    }
  }

  /** A quoted literal ends at its own closing quote and nowhere else, whatever
      characters it holds and whatever follows it. */
  lemma QuotedParses(value: string, rest: string)
    ensures ParseLiteral(Quoted(value) + rest) == Some((value, rest))
  {
    EscapeIsPerCharacter(value);
    EscapedBodyParses(value, rest);
    ExpectConcat("'", EscapeEach(value) + "'" + rest);
    assert Quoted(value) + rest == "'" + (EscapeEach(value) + "'" + rest);
  }

  lemma {:induction false} ParentClausesParse(parentIds: seq<string>, rest: string)
    requires parentIds != []
    requires Expect(rest, " or ").None?
    ensures ParseParents(ParentClauses(parentIds) + rest) == Some((parentIds, rest))
  {
    var id := parentIds[0];
    var s := ParentClauses(parentIds) + rest;
    if |parentIds| == 1 {
      QuotedParses(id, " in parents" + rest);
      assert s == Quoted(id) + (" in parents" + rest);
      ExpectConcat(" in parents", rest);
      assert parentIds == [id];
    } else {
      var more := ParentClauses(parentIds[1..]) + rest;
      QuotedParses(id, " in parents" + (" or " + more));
      assert s == Quoted(id) + (" in parents" + (" or " + more));
      ExpectConcat(" in parents", " or " + more);
      ExpectConcat(" or ", more);
      ParentClausesParse(parentIds[1..], rest);
      assert [id] + parentIds[1..] == parentIds;
    }
  }

  /** The printed parents clause reads back as exactly the list it was printed from;
      it is refused exactly when the list is empty or longer than 400. */
  lemma ParentsClauseRoundTrip(parentIds: seq<string>)
    ensures ParentsClause(parentIds).Ok? <==> 1 <= |parentIds| <= 400
    ensures ParentsClause(parentIds).Ok? ==>
              ParseParents(ParentsClause(parentIds).value) == Some((parentIds, ""))
  {
    if ParentsClause(parentIds).Ok? {
      ParentClausesParse(parentIds, "");
      assert ParentClauses(parentIds) + "" == ParentClauses(parentIds);
    }
  }

  // ---- One condition at a time.

  lemma UnderParses(parentIds: seq<string>, rest: string)
    requires parentIds != []
    ensures ParseTerm("(" + ParentClauses(parentIds) + ")" + rest) == Some((Under(parentIds), rest))
  {
    var s := "(" + ParentClauses(parentIds) + ")" + rest;
    assert s[0] == '(' && s[1..] == ParentClauses(parentIds) + (")" + rest);
    assert (")" + rest)[0] == ')';
    ParentClausesParse(parentIds, ")" + rest);
    ExpectConcat(")", rest);
  }

  lemma UnderOneParses(id: string, rest: string)
    ensures ParseTerm(Quoted(id) + " in parents" + rest) == Some((Under([id]), rest))
  {
    var s := Quoted(id) + " in parents" + rest;
    assert s[0] == '\'' && s == Quoted(id) + (" in parents" + rest);
    QuotedParses(id, " in parents" + rest);
    ExpectConcat(" in parents", rest);
  }

  lemma UntrashedParses(rest: string)
    ensures ParseTerm("trashed = false" + rest) == Some((Untrashed, rest))
  {
    assert ("trashed = false" + rest)[0] == 't';
    ExpectConcat("trashed = false", rest);
  }

  /** Nothing in the value needs an escape. */
  ghost predicate IsPlain(value: string) {
    forall i :: 0 <= i < |value| ==> value[i] != '\\' && value[i] != '\''
  }

  lemma {:induction false} PlainBodyParses(value: string, rest: string)
    requires IsPlain(value)
    ensures ParseBody(value + "'" + rest) == Some((value, rest))
  {
    var s := value + "'" + rest;
    if value == "" {
      assert s[1..] == rest;
    } else {
      PlainBodyParses(value[1..], rest);
      assert s[0] == value[0] && s[1..] == value[1..] + "'" + rest;
      assert value == [value[0]] + value[1..];
    }
  }

  lemma PlainParses(value: string, rest: string)
    requires IsPlain(value)
    ensures ParseLiteral("'" + value + "'" + rest) == Some((value, rest))
  {
    PlainBodyParses(value, rest);
    assert "'" + value + "'" + rest == "'" + (value + "'" + rest);
    ExpectConcat("'", value + "'" + rest);
  }

  lemma TypeIsParses(mimeType: string, rest: string)
    requires IsPlain(mimeType)
    ensures ParseTerm("mimeType = '" + mimeType + "'" + rest) == Some((TypeIs(mimeType), rest))
  {
    var s := "mimeType = '" + mimeType + "'" + rest;
    var literal := "'" + mimeType + "'" + rest;
    assert s[0] == 'm' && "trashed = false"[0] == 't';
    assert s == "mimeType = " + literal;
    ExpectConcat("mimeType = ", literal);
    PlainParses(mimeType, rest);
  }

  lemma TypeIsNotParses(mimeType: string, rest: string)
    requires IsPlain(mimeType)
    ensures ParseTerm(NotType(mimeType) + rest) == Some((TypeIsNot(mimeType), rest))
  {
    var s := "mimeType != '" + mimeType + "'" + rest;
    var literal := "'" + mimeType + "'" + rest;
    assert s[0] == 'm' && "trashed = false"[0] == 't';
    assert s[9] == '!' && "mimeType = "[9] == '=';
    assert s == "mimeType != " + literal;
    ExpectConcat("mimeType != ", literal);
    PlainParses(mimeType, rest);
  }

  lemma MentionsParses(keywords: string, rest: string)
    ensures ParseTerm("fullText contains " + Quoted(keywords) + rest) == Some((Mentions(keywords), rest))
  {
    var s := "fullText contains " + Quoted(keywords) + rest;
    assert s[0] == 'f' && "trashed = false"[0] == 't' && "mimeType = "[0] == 'm' && "mimeType != "[0] == 'm';
    assert s == "fullText contains " + (Quoted(keywords) + rest);
    ExpectConcat("fullText contains ", Quoted(keywords) + rest);
    QuotedParses(keywords, rest);
  }

  lemma LastParses(text: string, term: Term)
    requires ParseTerm(text + "") == Some((term, ""))
    ensures Parse(text) == Some([term])
  {
    assert text + "" == text;
  }

  lemma AndParses(first: string, term: Term, others: string, terms: seq<Term>)
    requires ParseTerm(first + (" and " + others)) == Some((term, " and " + others)) && Parse(others) == Some(terms)
    ensures Parse(And(first, others)) == Some([term] + terms)
  {
    ExpectConcat(" and ", others);
  }

  lemma NotTypesRead(folder: string, shortcut: string, keywords: string)
    requires IsPlain(folder) && IsPlain(shortcut)
    ensures Parse(And(NotType(folder), And(NotType(shortcut), "fullText contains " + Quoted(keywords))))
         == Some([TypeIsNot(folder)] + ([TypeIsNot(shortcut)] + [Mentions(keywords)]))
  {
    var last := "fullText contains " + Quoted(keywords);
    MentionsParses(keywords, "");
    LastParses(last, Mentions(keywords));
    TypeIsNotParses(shortcut, " and " + last);
    AndParses(NotType(shortcut), TypeIsNot(shortcut), last, [Mentions(keywords)]);
    var more := And(NotType(shortcut), last);
    TypeIsNotParses(folder, " and " + more);
    AndParses(NotType(folder), TypeIsNot(folder), more, [TypeIsNot(shortcut)] + [Mentions(keywords)]);
  }

  lemma UntrashedReads(others: string, terms: seq<Term>)
    requires Parse(others) == Some(terms)
    ensures Parse(And("trashed = false", others)) == Some([Untrashed] + terms)
  {
    UntrashedParses(" and " + others);
    AndParses("trashed = false", Untrashed, others, terms);
  }

  // ---- Whole queries.

  const FOLDER := "application/vnd.google-apps.folder"
  const SHORTCUT := "application/vnd.google-apps.shortcut"

  lemma TypesArePlain()
    ensures IsPlain(FOLDER_MIME_TYPE) && IsPlain(SHORTCUT_MIME_TYPE)
    ensures FOLDER_MIME_TYPE == FOLDER && SHORTCUT_MIME_TYPE == SHORTCUT
  {
  }

  /** The folder query asks for untrashed folders, and nothing else. */
  lemma FoldersQueryReads()
    ensures Parse(FoldersQuery()) == Some([TypeIs(FOLDER), Untrashed])
  {
    TypesArePlain();
    FolderTypeReads(FOLDER_MIME_TYPE);
  }

  lemma FolderTypeReads(folder: string)
    requires IsPlain(folder)
    ensures Parse(And("mimeType = '" + folder + "'", "trashed = false")) == Some([TypeIs(folder), Untrashed])
  {
    UntrashedParses("");
    LastParses("trashed = false", Untrashed);
    TypeIsParses(folder, " and " + "trashed = false");
    AndParses("mimeType = '" + folder + "'", TypeIs(folder), "trashed = false", [Untrashed]);
    assert [TypeIs(folder)] + [Untrashed] == [TypeIs(folder), Untrashed];
  }

  /** The query for children asks for what is under that very folder, untrashed and no
      shortcut, whatever the ID. */
  lemma ChildrenQueryReads(folderId: string)
    ensures Parse(ChildrenQuery(folderId)) == Some([Under([folderId]), Untrashed, TypeIsNot(SHORTCUT)])
  {
    TypesArePlain();
    ChildTypeReads(folderId, SHORTCUT_MIME_TYPE);
  }

  lemma ChildTypeReads(folderId: string, shortcut: string)
    requires IsPlain(shortcut)
    ensures Parse(And(Quoted(folderId) + " in parents", And("trashed = false", NotType(shortcut))))
         == Some([Under([folderId]), Untrashed, TypeIsNot(shortcut)])
  {
    TypeIsNotParses(shortcut, "");
    LastParses(NotType(shortcut), TypeIsNot(shortcut));
    UntrashedReads(NotType(shortcut), [TypeIsNot(shortcut)]);
    var more := And("trashed = false", NotType(shortcut));
    UnderOneParses(folderId, " and " + more);
    AndParses(Quoted(folderId) + " in parents", Under([folderId]), more, [Untrashed] + [TypeIsNot(shortcut)]);
    assert [Under([folderId])] + ([Untrashed] + [TypeIsNot(shortcut)]) == [Under([folderId]), Untrashed, TypeIsNot(shortcut)];
  }

  /** A search query asks for what is under those very folders, untrashed, neither folder nor
      shortcut, and mentions those very keywords: no keyword text and no ID can change that. */
  lemma SearchQueryReads(parentIds: seq<string>, keywords: string)
    requires 1 <= |parentIds| <= 400
    ensures SearchQuery(parentIds, keywords).Ok?
    ensures Parse(SearchQuery(parentIds, keywords).value)
         == Some([Under(parentIds), Untrashed, TypeIsNot(FOLDER), TypeIsNot(SHORTCUT), Mentions(keywords)])
  {
    TypesArePlain();
    SearchTypesRead(parentIds, FOLDER_MIME_TYPE, SHORTCUT_MIME_TYPE, keywords);
  }

  lemma FiveTerms(a: Term, b: Term, c: Term, d: Term, e: Term)
    ensures [a] + ([b] + ([c] + ([d] + [e]))) == [a, b, c, d, e]
  {
  }

  lemma SearchTypesRead(parentIds: seq<string>, folder: string, shortcut: string, keywords: string)
    requires parentIds != [] && IsPlain(folder) && IsPlain(shortcut)
    ensures Parse(And("(" + ParentClauses(parentIds) + ")",
                      And("trashed = false",
                          And(NotType(folder), And(NotType(shortcut), "fullText contains " + Quoted(keywords))))))
         == Some([Under(parentIds), Untrashed, TypeIsNot(folder), TypeIsNot(shortcut), Mentions(keywords)])
  {
    NotTypesRead(folder, shortcut, keywords);
    var types := And(NotType(folder), And(NotType(shortcut), "fullText contains " + Quoted(keywords)));
    var read := [TypeIsNot(folder)] + ([TypeIsNot(shortcut)] + [Mentions(keywords)]);
    UntrashedReads(types, read);
    var more := And("trashed = false", types);
    UnderParses(parentIds, " and " + more);
    AndParses("(" + ParentClauses(parentIds) + ")", Under(parentIds), more, [Untrashed] + read);
    FiveTerms(Under(parentIds), Untrashed, TypeIsNot(folder), TypeIsNot(shortcut), Mentions(keywords));
  }

  /** The parents and the keywords of a query that is a search and nothing more. */
  function ParseSearchQuery(s: string): Option<(seq<string>, string)> {
    match Parse(s)
    case None => None
    case Some(terms) =>
      if |terms| == 5 && terms[0].Under? && terms[1..4] == [Untrashed, TypeIsNot(FOLDER), TypeIsNot(SHORTCUT)] && terms[4].Mentions?
      then Some((terms[0].ids, terms[4].keywords)) else None
  }

  lemma SearchQueryRoundTrip(parentIds: seq<string>, keywords: string)
    requires 1 <= |parentIds| <= 400
    ensures SearchQuery(parentIds, keywords).Ok?
    ensures ParseSearchQuery(SearchQuery(parentIds, keywords).value) == Some((parentIds, keywords))
  {
    SearchQueryReads(parentIds, keywords);
  }

  /** Different requests print different queries. */
  lemma SearchQueryInjective(ids: seq<string>, keywords: string, otherIds: seq<string>, otherKeywords: string)
    requires 1 <= |ids| <= 400 && 1 <= |otherIds| <= 400
    requires SearchQuery(ids, keywords) == SearchQuery(otherIds, otherKeywords)
    ensures ids == otherIds && keywords == otherKeywords
  {
    SearchQueryRoundTrip(ids, keywords);
    SearchQueryRoundTrip(otherIds, otherKeywords);
  }
}
