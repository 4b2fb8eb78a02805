/** What the prepared statement guarantees, stated over the whole input
    space: how the table and operation are read from the text, which query a
    SELECT becomes, what an INSERT writes, and which calls fail before any
    request reaches the backend. */
module StatementProperties {
  import opened Wrappers
  import opened JsText
  import opened PreparedStatement

  // ---------------------------------------------------------------------------
  // Where the parts of a keyword, white space and run clause sit

  /** In pre + kw + ws + body + rest, the keyword, the white space and the
      run sit at these positions, and the run of p stops where body ends. */
  lemma ClauseLayout(pre: string, kw: string, ws: string, body: string, rest: string, p: char -> bool)
    requires AllSpace(ws)
    requires forall k :: 0 <= k < |body| ==> p(body[k])
    requires rest == [] || !p(rest[0])
    ensures var s := pre + kw + ws + body + rest;
      var k := |pre| + |kw| + |ws|;
      && s[|pre|..|pre| + |kw|] == kw
      && (forall j :: |pre| + |kw| <= j < k ==> IsSpace(s[j]))
      && (forall j :: k <= j < k + |body| ==> p(s[j]))
      && (k + |body| == |s| || !p(s[k + |body|]))
      && s[k..k + |body|] == body
  {
    var s := pre + kw + ws + body + rest;
    var k := |pre| + |kw| + |ws|;
    assert forall j :: |pre| + |kw| <= j < k ==> s[j] == ws[j - |pre| - |kw|];
    assert forall j :: k <= j < k + |body| ==> s[j] == body[j - k];
    assert k + |body| < |s| ==> s[k + |body|] == rest[0];
  }

  lemma WordIsNotSpace(c: char)
    requires IsWordChar(c)
    ensures !IsSpace(c)
  {
  }

  // ---------------------------------------------------------------------------
  // Target table

  /** A spelling of key at i, white space up to k and a word from k to e:
      the alternative `key\s+(\w+)` captures exactly that word. */
  lemma KeywordThenWordAt(s: string, i: nat, key: string, k: nat, e: nat)
    requires MatchesAt(s, i, key)
    requires i + |key| < k < e <= |s|
    requires forall j :: i + |key| <= j < k ==> IsSpace(s[j])
    requires forall j :: k <= j < e ==> IsWordChar(s[j])
    requires e == |s| || !IsWordChar(s[e])
    ensures KeywordThenWord(s, i, key) == Some(s[k..e])
  {
    assert IsWordChar(s[k]);
    RunEndUnique(IsSpace, s, i + |key|, k);
    RunEndUnique(IsWordChar, s, k, e);
  }

  /** A keyword cannot match where the text starts with a different letter. */
  lemma FirstLetterRulesOut(s: string, i: nat, key: string)
    requires i < |s| && |key| > 0
    requires LowerAsciiChar(s[i]) != LowerAsciiChar(key[0])
    ensures !MatchesAt(s, i, key)
  {
    if i + |key| <= |s| {
      assert s[i..i + |key|][0] == s[i];
      assert LowerAscii(s[i..i + |key|])[0] != LowerAscii(key)[0];
    }
  }

  /** FROM, INTO or UPDATE in any ASCII case, white space and a word: the
      reference at i is that word, whichever alternative matches. */
  lemma TableRefAtKeyword(s: string, i: nat, n: nat, k: nat, e: nat)
    requires i + n < k < e <= |s|
    requires LowerAscii(s[i..i + n]) == "from" || LowerAscii(s[i..i + n]) == "into"
          || LowerAscii(s[i..i + n]) == "update"
    requires forall j :: i + n <= j < k ==> IsSpace(s[j])
    requires forall j :: k <= j < e ==> IsWordChar(s[j])
    requires e == |s| || !IsWordChar(s[e])
    ensures TableRefAt(s, i) == Some(s[k..e])
  {
    var w := LowerAscii(s[i..i + n]);
    assert LowerAsciiChar(s[i]) == w[0] by {
      assert s[i..i + n][0] == s[i];
    }
    if w == "from" {
      FromAt(s, i, k, e);
    } else if w == "into" {
      IntoAt(s, i, k, e);
    } else {
      UpdateAt(s, i, k, e);
    }
  }

  lemma FromAt(s: string, i: nat, k: nat, e: nat)
    requires i + 4 < k < e <= |s| && LowerAscii(s[i..i + 4]) == "from"
    requires forall j :: i + 4 <= j < k ==> IsSpace(s[j])
    requires forall j :: k <= j < e ==> IsWordChar(s[j])
    requires e == |s| || !IsWordChar(s[e])
    ensures TableRefAt(s, i) == Some(s[k..e])
  {
    assert LowerAscii("FROM") == "from";
    KeywordThenWordAt(s, i, "FROM", k, e);
  }

  lemma IntoAt(s: string, i: nat, k: nat, e: nat)
    requires i + 4 < k < e <= |s| && LowerAscii(s[i..i + 4]) == "into"
    requires forall j :: i + 4 <= j < k ==> IsSpace(s[j])
    requires forall j :: k <= j < e ==> IsWordChar(s[j])
    requires e == |s| || !IsWordChar(s[e])
    ensures TableRefAt(s, i) == Some(s[k..e])
  {
    assert LowerAsciiChar(s[i]) == 'i' by {
      assert s[i..i + 4][0] == s[i];
    }
    FirstLetterRulesOut(s, i, "FROM");
    assert LowerAscii("INTO") == "into";
    KeywordThenWordAt(s, i, "INTO", k, e);
  }

  lemma UpdateAt(s: string, i: nat, k: nat, e: nat)
    requires i + 6 < k < e <= |s| && LowerAscii(s[i..i + 6]) == "update"
    requires forall j :: i + 6 <= j < k ==> IsSpace(s[j])
    requires forall j :: k <= j < e ==> IsWordChar(s[j])
    requires e == |s| || !IsWordChar(s[e])
    ensures TableRefAt(s, i) == Some(s[k..e])
  {
    assert !MatchesAt(s, i, "FROM") && !MatchesAt(s, i, "INTO") by {
      assert LowerAsciiChar(s[i]) == 'u' by {
        assert s[i..i + 6][0] == s[i];
      }
      FirstLetterRulesOut(s, i, "FROM");
      FirstLetterRulesOut(s, i, "INTO");
    }
    assert KeywordThenWord(s, i, "UPDATE") == Some(s[k..e]) by {
      assert LowerAscii("UPDATE") == "update";
      KeywordThenWordAt(s, i, "UPDATE", k, e);
    }
  }

  /** A FROM, INTO or UPDATE keyword (any ASCII case), white space and a
      word, with no table reference starting earlier in the text, names the
      target table: the word itself, or `n8n_nodes` for `nodes`. */
  lemma TableNameOfReference(p: string, kw: string, ws: string, name: string, rest: string)
    requires LowerAscii(kw) == "from" || LowerAscii(kw) == "into" || LowerAscii(kw) == "update"
    requires |ws| > 0 && AllSpace(ws) && |name| > 0 && AllWordChars(name)
    requires rest == [] || !IsWordChar(rest[0])
    requires forall i :: 0 <= i < |p| ==> TableRefAt(p + kw + ws + name + rest, i) == None
    ensures TableName(p + kw + ws + name + rest) == BackendTable(name)
  {
    var s := p + kw + ws + name + rest;
    var k := |p| + |kw| + |ws|;
    ClauseLayout(p, kw, ws, name, rest, IsWordChar);
    var w := s[k..k + |name|];
    assert w == name;
    assert TableName(s) == BackendTable(w) by {
      TableNameAt(s, |p|, |kw|, k, k + |name|);
    }
  }

  /** The same, stated over positions in the text: the keyword from i to
      i + n, white space up to k and the word from k to e. */
  lemma TableNameAt(s: string, i: nat, n: nat, k: nat, e: nat)
    requires i + n < k < e <= |s|
    requires LowerAscii(s[i..i + n]) == "from" || LowerAscii(s[i..i + n]) == "into"
          || LowerAscii(s[i..i + n]) == "update"
    requires forall j :: i + n <= j < k ==> IsSpace(s[j])
    requires forall j :: k <= j < e ==> IsWordChar(s[j])
    requires e == |s| || !IsWordChar(s[e])
    requires forall j :: 0 <= j < i ==> TableRefAt(s, j) == None
    ensures TableName(s) == BackendTable(s[k..e])
  {
    TableRefAtKeyword(s, i, n, k, e);
    FirstMatchAt(TableRefAt, s, 0, i, s[k..e]);
  }

  /** Conversely, a word captured by `kw\s+(\w+)` at i is spelled there:
      kw in some ASCII case, at least one white-space character, and the
      maximal word. */
  lemma KeywordThenWordSpelled(s: string, i: nat, kw: string)
    requires KeywordThenWord(s, i, kw).Some?
    ensures exists k: nat, e: nat :: ClauseAt(s, i, kw, k, e, IsWordChar) && KeywordThenWord(s, i, kw).value == s[k..e]
  {
    var k := RunEnd(IsSpace, s, i + |kw|);
    var e := RunEnd(IsWordChar, s, k);
    assert ClauseAt(s, i, kw, k, e, IsWordChar);
  }

  /** A table reference found at i is FROM, INTO or UPDATE spelled at i,
      white space, and the maximal word that is the reference. */
  lemma TableRefAtSpelled(s: string, i: nat)
    requires TableRefAt(s, i).Some?
    ensures var w := TableRefAt(s, i).value;
      || (exists k: nat, e: nat :: ClauseAt(s, i, "FROM", k, e, IsWordChar) && w == s[k..e])
      || (exists k: nat, e: nat :: ClauseAt(s, i, "INTO", k, e, IsWordChar) && w == s[k..e])
      || (exists k: nat, e: nat :: ClauseAt(s, i, "UPDATE", k, e, IsWordChar) && w == s[k..e])
  {
    if KeywordThenWord(s, i, "FROM").Some? {
      KeywordThenWordSpelled(s, i, "FROM");
    } else if KeywordThenWord(s, i, "INTO").Some? {
      KeywordThenWordSpelled(s, i, "INTO");
    } else {
      KeywordThenWordSpelled(s, i, "UPDATE");
    }
  }

  /** Only the SQLite name `nodes` is renamed, to `n8n_nodes`; every other
      name is kept as it is. */
  lemma BackendTableRenamesOnlyNodes(name: string)
    ensures BackendTable(name) == name <==> name != "nodes"
    ensures BackendTable(name) != "nodes"
  {
  }

  /** A text in which no table reference starts anywhere targets the
      default table, `nodes`, renamed to `n8n_nodes`. */
  lemma TableNameWithoutReference(s: string)
    requires forall i :: 0 <= i <= |s| ==> TableRefAt(s, i) == None
    ensures TableName(s) == "n8n_nodes"
  {
    assert FirstMatch(TableRefAt, s, 0) == None;
  }

  /** No table reference starts at a letter other than f, i or u. */
  lemma NoReferenceAt(s: string, i: nat)
    requires i < |s|
    requires LowerAsciiChar(s[i]) != 'f' && LowerAsciiChar(s[i]) != 'i' && LowerAsciiChar(s[i]) != 'u'
    ensures TableRefAt(s, i) == None
  {
    FirstLetterRulesOut(s, i, "FROM");
    FirstLetterRulesOut(s, i, "INTO");
    FirstLetterRulesOut(s, i, "UPDATE");
  }

  /** `SELECT * FROM nodes` targets `n8n_nodes`. */
  lemma SelectFromNodesTargetsN8nNodes()
    ensures TableName("SELECT * FROM nodes") == "n8n_nodes"
  {
    var p := "SELECT * ";
    var s := p + "FROM" + " " + "nodes" + "";
    assert s == "SELECT * FROM nodes";
    forall i | 0 <= i < |p| ensures TableRefAt(s, i) == None {
      assert s[i] == p[i];
      NoReferenceAt(s, i);
    }
    assert LowerAscii("FROM") == "from";
    TableNameOfReference(p, "FROM", " ", "nodes", "");
  }

  // ---------------------------------------------------------------------------
  // Operation

  lemma KeywordIsCapitals(o: Op)
    requires o != Unknown
    ensures |Keyword(o)| == 6
    ensures forall i :: 0 <= i < |Keyword(o)| ==> 'A' <= Keyword(o)[i] <= 'Z'
  {
  }

  /** Leading white space before a word is all that TrimStart removes. */
  lemma TrimStartBeforeWord(w: string, kw: string, rest: string)
    requires AllSpace(w) && |kw| > 0
    requires forall i :: 0 <= i < |kw| ==> !IsSpace(kw[i])
    ensures TrimStart(w + kw + rest) == kw + rest
  {
    var x := kw + rest;
    assert w + kw + rest == w + x;
    TrimStartSkipsSpace(w, x);
    assert !IsSpace(x[0]);
  }

  /** TrimEnd never reaches into a leading word free of white space. */
  lemma TrimEndAfterWord(kw: string, rest: string)
    requires |kw| > 0
    requires forall i :: 0 <= i < |kw| ==> !IsSpace(kw[i])
    ensures kw <= TrimEnd(kw + rest)
  {
    var x := kw + rest;
    var t := TrimEnd(x);
    assert forall j :: |t| <= j < |x| ==> x[j] == x[|t|..][j - |t|];
    assert !IsSpace(x[|kw| - 1]);
  }

  /** A text that begins with a word free of white space keeps that word at
      its head once trimmed. */
  lemma TrimKeepsLeadingWord(w: string, kw: string, rest: string)
    requires AllSpace(w) && |kw| > 0
    requires forall i :: 0 <= i < |kw| ==> !IsSpace(kw[i])
    ensures kw <= Trim(w + kw + rest)
  {
    TrimStartBeforeWord(w, kw, rest);
    TrimEndAfterWord(kw, rest);
  }

  /** A spelling of a word of ASCII capitals, in any ASCII case, upper-cases
      back to that word. */
  lemma UpperOfSpelling(kw: string, key: string)
    requires forall i :: 0 <= i < |key| ==> 'A' <= key[i] <= 'Z'
    requires LowerAscii(kw) == LowerAscii(key)
    ensures Upper(kw) == key
  {
    UpperIgnoresAsciiCase(kw);
    UpperIgnoresAsciiCase(key);
    UpperOfCapitals(key);
  }

  /** A spelling of a word of ASCII capitals holds no white space. */
  lemma SpellingHasNoSpace(kw: string, key: string)
    requires forall i :: 0 <= i < |key| ==> 'A' <= key[i] <= 'Z'
    requires LowerAscii(kw) == LowerAscii(key)
    ensures forall i :: 0 <= i < |kw| ==> !IsSpace(kw[i])
  {
    forall i | 0 <= i < |kw| ensures !IsSpace(kw[i]) {
      assert LowerAscii(kw)[i] == LowerAscii(key)[i];
      CaseVariantOfCapital(kw[i], key[i]);
      WordIsNotSpace(kw[i]);
    }
  }

  /** A character that folds to the same letter as a capital is a letter. */
  lemma CaseVariantOfCapital(c: char, k: char)
    requires 'A' <= k <= 'Z' && LowerAsciiChar(c) == LowerAsciiChar(k)
    ensures IsWordChar(c)
  {
  }

  /** Upper-casing maps a prefix to a prefix. */
  lemma UpperKeepsPrefix(p: string, t: string)
    requires p <= t
    ensures Upper(p) <= Upper(t)
  {
    assert t == p + t[|p|..];
    UpperConcat(p, t[|p|..]);
  }

  /** A statement that begins, after any white space, with an operation
      keyword in any ASCII case is classified as that operation, whatever
      follows it. */
  lemma OperationOfLeadingKeyword(w: string, kw: string, rest: string, o: Op)
    requires o != Unknown && AllSpace(w)
    requires LowerAscii(kw) == LowerAscii(Keyword(o))
    ensures Operation(w + kw + rest) == o
  {
    KeywordIsCapitals(o);
    LeadingSpelling(w, kw, rest, Keyword(o));
  }

  /** A text that begins, after white space, with some ASCII-case spelling
      of a word of capitals upper-cases, once trimmed, to a text beginning
      with that word. */
  lemma LeadingSpelling(w: string, kw: string, rest: string, key: string)
    requires AllSpace(w) && |key| > 0
    requires forall i :: 0 <= i < |key| ==> 'A' <= key[i] <= 'Z'
    requires LowerAscii(kw) == LowerAscii(key)
    ensures key <= Upper(Trim(w + kw + rest))
  {
    UpperOfSpelling(kw, key);
    SpellingHasNoSpace(kw, key);
    assert |kw| == |LowerAscii(kw)| == |key|;
    TrimKeepsLeadingWord(w, kw, rest);
    UpperKeepsPrefix(kw, Trim(w + kw + rest));
  }

  /** Classification ignores the ASCII case of the whole text. */
  lemma OperationIgnoresAsciiCase(s: string, t: string)
    requires LowerAscii(s) == LowerAscii(t)
    ensures Operation(s) == Operation(t)
  {
    TrimCommutesWithLower(s);
    TrimCommutesWithLower(t);
    UpperIgnoresAsciiCase(Trim(s));
    UpperIgnoresAsciiCase(Trim(t));
  }

  /** Classification ignores white space around the text. */
  lemma OperationIgnoresPadding(w1: string, s: string, w2: string)
    requires AllSpace(w1) && AllSpace(w2)
    ensures Operation(w1 + s + w2) == Operation(s)
  {
    TrimIgnoresPadding(w1, s, w2);
  }

  // ---------------------------------------------------------------------------
  // SELECT routing

  /** Routing is first-match-wins over case-sensitive substrings, in the
      order node_type filter, is_ai_tool filter, COUNT(*), LIKE, default. */
  lemma RoutingOrder(sql: string, params: seq<Value>)
    ensures Occurs(NodeTypeFilter, sql) ==> PlanSelect(sql, params) == Success(EqNodeType(Arg(params, 0)))
    ensures !Occurs(NodeTypeFilter, sql) && Occurs(AiToolFilter, sql) ==> PlanSelect(sql, params) == Success(EqAiTool)
    ensures !Occurs(NodeTypeFilter, sql) && !Occurs(AiToolFilter, sql) && Occurs(CountStar, sql)
            ==> PlanSelect(sql, params) == Success(CountAll)
    ensures !Occurs(NodeTypeFilter, sql) && !Occurs(AiToolFilter, sql) && !Occurs(CountStar, sql)
            && Occurs(LikePredicate, sql)
            ==> (PlanSelect(sql, params).Success? ==> PlanSelect(sql, params).value.Search?)
    ensures (!Occurs(NodeTypeFilter, sql) && !Occurs(AiToolFilter, sql) && !Occurs(CountStar, sql)
             && !Occurs(LikePredicate, sql))
            <==> PlanSelect(sql, params).Success? && PlanSelect(sql, params).value.ListOrdered?
  {
  }

  /** A pattern whose first character the text lacks does not occur in it. */
  lemma AbsentFirstChar(p: string, s: string)
    requires |p| > 0
    requires forall i :: 0 <= i < |s| ==> s[i] != p[0]
    ensures !Occurs(p, s)
  {
    forall i | 0 <= i && i + |p| <= |s| ensures !OccursAt(p, s, i) {
      assert s[i..i + |p|][0] == s[i];
    }
  }

  /** The substring tests are case-sensitive: a text without capital
      letters (a filter written in lower case, say) always falls through to
      the default list. */
  lemma LowerCaseTextIsNotRouted(sql: string, params: seq<Value>)
    requires forall i :: 0 <= i < |sql| ==> !('A' <= sql[i] <= 'Z')
    ensures PlanSelect(sql, params) == Success(ListOrdered(LimitOf(sql)))
  {
    AbsentFirstChar(NodeTypeFilter, sql);
    AbsentFirstChar(AiToolFilter, sql);
    AbsentFirstChar(CountStar, sql);
    AbsentFirstChar(LikePredicate, sql);
  }

  /** Only a LIKE query can fail while planning, and only when its first
      parameter is present and is not a string. */
  lemma PlanningFailsOnlyOnNonStringTerm(sql: string, params: seq<Value>)
    ensures PlanSelect(sql, params).Failure? <==>
      && !Occurs(NodeTypeFilter, sql) && !Occurs(AiToolFilter, sql) && !Occurs(CountStar, sql)
      && Occurs(LikePredicate, sql) && |params| > 0 && !params[0].Str?
    ensures PlanSelect(sql, params).Failure? ==> PlanSelect(sql, params).error == NotAString(params[0])
  {
  }

  /** The search term is the first parameter with every `%` removed: it
      holds no `%`, and keeps every other character, as often and in the
      same order. */
  lemma SearchTermStripsWildcards(sql: string, params: seq<Value>, t: string)
    requires PlanSelect(sql, params) == Success(Search(Some(t)))
    ensures |params| > 0 && params[0].Str?
    ensures '%' !in t
    ensures IsSubsequence(t, params[0].s)
    ensures forall d :: d != '%' ==> multiset(t)[d] == multiset(params[0].s)[d]
  {
    RemoveAllKeepsOrder(params[0].s, '%');
  }

  /** With no parameter a LIKE query searches nothing: it plans a search
      without a term and reads the whole table, with no filter at all. */
  lemma SearchWithoutTermHasNoFilter(sql: string, table: string)
    requires !Occurs(NodeTypeFilter, sql) && !Occurs(AiToolFilter, sql) && !Occurs(CountStar, sql)
    requires Occurs(LikePredicate, sql)
    ensures PlanSelect(sql, []) == Success(Search(None))
    ensures SelectQuery(table, Search(None)) == Query(table, "*", [], None, None, false)
  {
  }

  /** A LIKE query whose first parameter is a string searches for that
      string with its `%` removed: one `.or` filter of the three `ilike`
      conditions on that term. */
  lemma LikeSearchesStrippedTerm(sql: string, params: seq<Value>, table: string)
    requires !Occurs(NodeTypeFilter, sql) && !Occurs(AiToolFilter, sql) && !Occurs(CountStar, sql)
    requires Occurs(LikePredicate, sql)
    requires |params| > 0 && params[0].Str?
    ensures var t := RemoveAll(params[0].s, '%');
      && PlanSelect(sql, params) == Success(Search(Some(t)))
      && SelectQuery(table, Search(Some(t))).filters == [AnyOf(SearchConditions(t))]
  {
  }

  /** A LIKE query with parameter `%http%` issues one `.or` filter whose
      conditions are the partial matches of `http` on node_type,
      display_name and description. */
  lemma WildcardsStrippedFromHttp(sql: string, table: string)
    requires !Occurs(NodeTypeFilter, sql) && !Occurs(AiToolFilter, sql) && !Occurs(CountStar, sql)
    requires Occurs(LikePredicate, sql)
    ensures PlanSelect(sql, [Str("%http%")]) == Success(Search(Some("http")))
    ensures var filters := SelectQuery(table, Search(Some("http"))).filters;
      && |filters| == 1 && filters[0].AnyOf?
      && SplitOn(filters[0].conditions, ',')
         == ["node_type.ilike.%http%", "display_name.ilike.%http%", "description.ilike.%http%"]
  {
    var params := [Str("%http%")];
    assert RemoveAll(params[0].s, '%') == "http" by {
      assert params[0].s == "%http%";
    }
    assert PlanSelect(sql, params) == Success(Search(Some("http")))
        && SelectQuery(table, Search(Some("http"))).filters == [AnyOf(SearchConditions("http"))] by {
      LikeSearchesStrippedTerm(sql, params, table);
    }
    HttpConditions();
  }

  /** The `.or` text for `http`, condition by condition. */
  lemma HttpConditions()
    ensures SplitOn(SearchConditions("http"), ',')
         == ["node_type.ilike.%http%", "display_name.ilike.%http%", "description.ilike.%http%"]
  {
    SearchConditionsAreThree("http");
    assert IlikeCondition("node_type", "http") == "node_type.ilike.%http%";
    assert IlikeCondition("display_name", "http") == "display_name.ilike.%http%";
    assert IlikeCondition("description", "http") == "description.ilike.%http%";
  }

  /** The three searched column names hold no comma. */
  lemma SearchColumnsHaveNoComma()
    ensures ',' !in "node_type" && ',' !in "display_name" && ',' !in "description"
  {
  }

  lemma CountWithout(x: string, c: char)
    requires c !in x
    ensures multiset(x)[c] == 0
  {
  }

  /** A condition on a comma-free column has as many commas as the term. */
  lemma ConditionCommas(column: string, t: string)
    requires ',' !in column
    ensures multiset(IlikeCondition(column, t))[','] == multiset(t)[',']
  {
    var x := IlikeCondition(column, t);
    assert x == column + ".ilike.%" + t + "%";
    assert multiset(x) == multiset(column) + multiset(".ilike.%") + multiset(t) + multiset("%");
    CountWithout(column, ',');
    CountWithout(".ilike.%", ',');
    CountWithout("%", ',');
  }

  lemma ConditionCommaFree(column: string, t: string)
    requires ',' !in column && ',' !in t
    ensures ',' !in IlikeCondition(column, t)
  {
    assert IlikeCondition(column, t) == column + ".ilike.%" + t + "%";
  }

  /** Three comma-free parts joined by commas split back into those parts. */
  lemma SplitThree(a: string, b: string, c: string)
    requires ',' !in a && ',' !in b && ',' !in c
    ensures SplitOn(a + "," + b + "," + c, ',') == [a, b, c]
  {
    assert a + "," + b + "," + c == a + [','] + (b + [','] + c);
    SplitOnAfterHead(a, ',', b + [','] + c);
    SplitOnAfterHead(b, ',', c);
    SplitOnWithout(c, ',');
  }

  lemma SplitCountOfThree(a: string, b: string, c: string, n: nat)
    requires multiset(a)[','] == n && multiset(b)[','] == n && multiset(c)[','] == n
    ensures |SplitOn(a + "," + b + "," + c, ',')| == 3 + 3 * n
  {
    SplitOnCount(a + "," + b + "," + c, ',');
    assert multiset(a + "," + b + "," + c) == multiset(a) + multiset(",") + multiset(b) + multiset(",") + multiset(c);
  }

  /** Without a comma in the term the `.or(...)` text is exactly three
      conditions: a case-insensitive partial match of the term on node_type,
      display_name and description. */
  lemma SearchConditionsAreThree(t: string)
    requires ',' !in t
    ensures SplitOn(SearchConditions(t), ',') ==
      [IlikeCondition("node_type", t), IlikeCondition("display_name", t), IlikeCondition("description", t)]
  {
    SearchColumnsHaveNoComma();
    ConditionCommaFree("node_type", t);
    ConditionCommaFree("display_name", t);
    ConditionCommaFree("description", t);
    SplitThree(IlikeCondition("node_type", t), IlikeCondition("display_name", t), IlikeCondition("description", t));
  }

  /** Every comma in the term adds three conditions to the `.or(...)` text,
      so the filter is the intended three-way match only for comma-free
      terms. */
  lemma SearchConditionCount(t: string)
    ensures |SplitOn(SearchConditions(t), ',')| == 3 + 3 * multiset(t)[',']
  {
    SearchColumnsHaveNoComma();
    ConditionCommas("node_type", t);
    ConditionCommas("display_name", t);
    ConditionCommas("description", t);
    SplitCountOfThree(IlikeCondition("node_type", t), IlikeCondition("display_name", t),
                      IlikeCondition("description", t), multiset(t)[',']);
  }

  /** The cap is present exactly when some position starts a `LIMIT`,
      white space, digits clause (any case), and it is the value of the
      leftmost one. */
  lemma LimitOfLeftmost(sql: string)
    ensures LimitOf(sql).Some? <==> exists i: nat :: LimitAt(sql, i).Some?
    ensures LimitOf(sql).Some? ==>
      exists i: nat :: LimitAt(sql, i) == LimitOf(sql) && forall j :: 0 <= j < i ==> LimitAt(sql, j) == None
  {
    var m := FirstMatch(LimitAt, sql, 0);
    if m.Some? {
      assert LimitAt(sql, m.value.0) == LimitOf(sql);
    } else {
      forall i: nat ensures LimitAt(sql, i) == None {
        if i > |sql| {
          assert !MatchesAt(sql, i, "LIMIT");
        }
      }
    }
  }

  /** When no routed substring occurs, the default branch lists the table
      ordered by display_name, capped exactly when the text has a `LIMIT`,
      white space, digits clause (any case), at the value of the leftmost
      such clause. */
  lemma DefaultListLimit(sql: string, params: seq<Value>, table: string)
    requires !Occurs(NodeTypeFilter, sql) && !Occurs(AiToolFilter, sql)
    requires !Occurs(CountStar, sql) && !Occurs(LikePredicate, sql)
    ensures PlanSelect(sql, params) == Success(ListOrdered(LimitOf(sql)))
    ensures SelectQuery(table, ListOrdered(LimitOf(sql))).orderBy == Some("display_name")
    ensures SelectQuery(table, ListOrdered(LimitOf(sql))).limit == LimitOf(sql)
    ensures LimitOf(sql).Some? <==> exists i: nat, k: nat, e: nat :: ClauseAt(sql, i, "LIMIT", k, e, IsDigit)
    ensures LimitOf(sql).Some? ==>
      exists i: nat :: LimitAt(sql, i) == LimitOf(sql) && forall j :: 0 <= j < i ==> LimitAt(sql, j) == None
  {
    LimitOfLeftmost(sql);
    LimitPresentIffClause(sql);
  }

  /** A spelling of LIMIT at i, white space up to k and digits from k to
      e: `LIMIT\s+(\d+)` matches there with the value of those digits. */
  lemma LimitAtClause(s: string, i: nat, k: nat, e: nat)
    requires MatchesAt(s, i, "LIMIT")
    requires i + 5 < k < e <= |s|
    requires forall j :: i + 5 <= j < k ==> IsSpace(s[j])
    requires forall j :: k <= j < e ==> IsDigit(s[j])
    requires e == |s| || !IsDigit(s[e])
    ensures AllDigits(s[k..e]) && LimitAt(s, i) == Some(DecimalValue(s[k..e]))
  {
    assert !IsSpace(s[k]);
    RunEndUnique(IsSpace, s, i + 5, k);
    RunEndUnique(IsDigit, s, k, e);
  }

  /** Conversely, a match of `LIMIT\s+(\d+)` at i is a spelling of LIMIT,
      at least one white-space character and a maximal digit run, and its
      value is the decimal value of those digits. */
  lemma LimitAtSpelled(s: string, i: nat)
    requires LimitAt(s, i).Some?
    ensures exists k: nat, e: nat :: ClauseAt(s, i, "LIMIT", k, e, IsDigit) && AllDigits(s[k..e])
                                  && LimitAt(s, i).value == DecimalValue(s[k..e])
  {
    var k := RunEnd(IsSpace, s, i + 5);
    var e := RunEnd(IsDigit, s, k);
    assert ClauseAt(s, i, "LIMIT", k, e, IsDigit);
    assert forall t :: 0 <= t < e - k ==> s[k..e][t] == s[k + t];
  }

  /** The list is capped exactly when the text holds a `LIMIT`, white
      space, digits clause somewhere. */
  lemma LimitPresentIffClause(sql: string)
    ensures LimitOf(sql).Some? <==> exists i: nat, k: nat, e: nat :: ClauseAt(sql, i, "LIMIT", k, e, IsDigit)
  {
    LimitOfLeftmost(sql);
    if LimitOf(sql).Some? {
      var i: nat :| LimitAt(sql, i).Some?;
      LimitAtSpelled(sql, i);
    }
    if exists i: nat, k: nat, e: nat :: ClauseAt(sql, i, "LIMIT", k, e, IsDigit) {
      var i: nat, k: nat, e: nat :| ClauseAt(sql, i, "LIMIT", k, e, IsDigit);
      LimitAtClause(sql, i, k, e);
    }
  }

  /** A `LIMIT` clause (any case) with no earlier one caps the list at the
      decimal value of its digits. */
  lemma LimitOfClause(p: string, kw: string, ws: string, ds: string, rest: string)
    requires LowerAscii(kw) == "limit"
    requires |ws| > 0 && AllSpace(ws) && |ds| > 0 && AllDigits(ds)
    requires rest == [] || !IsDigit(rest[0])
    requires forall i :: 0 <= i < |p| ==> LimitAt(p + kw + ws + ds + rest, i) == None
    ensures LimitOf(p + kw + ws + ds + rest) == Some(DecimalValue(ds))
  {
    var s := p + kw + ws + ds + rest;
    var k := |p| + |kw| + |ws|;
    ClauseLayout(p, kw, ws, ds, rest, IsDigit);
    assert LowerAscii("LIMIT") == "limit";
    assert MatchesAt(s, |p|, "LIMIT");
    LimitAtClause(s, |p|, k, k + |ds|);
    FirstMatchAt(LimitAt, s, 0, |p|, DecimalValue(ds));
  }

  /** Writing n after `LIMIT ` at the end of a query caps the list at n. */
  lemma LimitRoundTrip(p: string, n: nat)
    requires forall i :: 0 <= i < |p| ==> LimitAt(p + "LIMIT" + " " + DecimalDigits(n) + "", i) == None
    ensures LimitOf(p + "LIMIT" + " " + DecimalDigits(n) + "") == Some(n)
  {
    LimitOfClause(p, "LIMIT", " ", DecimalDigits(n), "");
    DecimalRoundTrip(n);
  }

  // ---------------------------------------------------------------------------
  // Queries issued and rows returned

  /** `all()` on a COUNT query returns exactly one row `{count: N}`, with N
      the backend's exact count, or 0 when it reports none. */
  lemma CountQueryReturnsOneRow(stmt: Statement, params: seq<Value>, backend: Backend)
    requires stmt.op == Select && PlanSelect(stmt.sql, params) == Success(CountAll)
    requires backend(Read(SelectQuery(stmt.table, CountAll))).error.None?
    ensures AsyncAll(stmt, params, backend)
         == Success([CountRow(backend(Read(SelectQuery(stmt.table, CountAll))).count.GetOr(0))])
    ensures backend(Read(SelectQuery(stmt.table, CountAll))).count.None? ==>
      AsyncAll(stmt, params, backend) == Success([map["count" := Num(0)]])
  {
  }

  /** `get()` answers the first row of what `all()` answers for the same
      statement and parameters, and fails exactly when `all()` does. */
  lemma GetIsFirstOfAll(stmt: Statement, params: seq<Value>, backend: Backend)
    requires stmt.op == Select
    ensures AsyncAll(stmt, params, backend).Success? <==> AsyncGet(stmt, params, backend).Success?
    ensures AsyncAll(stmt, params, backend).Success? ==>
      var rows := AsyncAll(stmt, params, backend).value;
      AsyncGet(stmt, params, backend).value == if rows == [] then None else Some(rows[0])
    ensures AsyncAll(stmt, params, backend).Failure? ==>
      AsyncGet(stmt, params, backend).error == AsyncAll(stmt, params, backend).error
  {
  }

  /** A SELECT issues exactly one request: two backends that answer that
      request alike give the same rows. */
  lemma SelectIssuesOneRequest(stmt: Statement, params: seq<Value>, b1: Backend, b2: Backend, plan: SelectPlan)
    requires PlanSelect(stmt.sql, params) == Success(plan)
    requires b1(Read(SelectQuery(stmt.table, plan))) == b2(Read(SelectQuery(stmt.table, plan)))
    ensures AsyncAll(stmt, params, b1) == AsyncAll(stmt, params, b2)
    ensures AsyncGet(stmt, params, b1) == AsyncGet(stmt, params, b2)
  {
  }

  /** Calls that fail on the operation fail before any request: their
      outcome does not depend on the backend at all. */
  lemma RejectedCallsIssueNoRequest(stmt: Statement, params: seq<Value>, b1: Backend, b2: Backend)
    ensures stmt.op != Select ==> AsyncGet(stmt, params, b1) == AsyncGet(stmt, params, b2)
    ensures stmt.op != Select ==> AsyncAll(stmt, params, b1) == AsyncAll(stmt, params, b2)
    ensures stmt.op != Insert ==> AsyncRun(stmt, params, b1) == AsyncRun(stmt, params, b2)
  {
  }

  /** The texts `run` throws for the operations it does not carry out. */
  lemma RunMessages(stmt: Statement, params: seq<Value>, backend: Backend)
    ensures stmt.op == Update ==>
      Message(AsyncRun(stmt, params, backend).error) == "UPDATE not implemented yet for Supabase adapter"
    ensures stmt.op == Delete ==>
      Message(AsyncRun(stmt, params, backend).error) == "DELETE not implemented yet for Supabase adapter"
    ensures stmt.op == Select || stmt.op == Unknown ==>
      Message(AsyncRun(stmt, params, backend).error) == "Unsupported operation: " + OpName(stmt.op)
  {
  }

  /** The texts `get`, `all` and `iterate` throw without a request. */
  lemma GetAllMessages(stmt: Statement, params: seq<Value>, backend: Backend)
    ensures stmt.op != Select ==>
      Message(AsyncGet(stmt, params, backend).error) == "get() not supported for operation: " + OpName(stmt.op)
    ensures stmt.op != Select ==>
      Message(AsyncAll(stmt, params, backend).error) == "all() not supported for operation: " + OpName(stmt.op)
    ensures Message(Iterate(stmt, params).error) == "iterate() not implemented for Supabase adapter"
  {
  }

  /** The node-type lookup is routed to one equality filter on node_type
      with the first parameter, and nothing else: no order, no limit. */
  lemma NodeTypeLookup(params: seq<Value>)
    ensures Prepare("SELECT * FROM nodes WHERE node_type = ?").table == "n8n_nodes"
    ensures PlanSelect("SELECT * FROM nodes WHERE node_type = ?", params) == Success(EqNodeType(Arg(params, 0)))
    ensures SelectQuery("n8n_nodes", EqNodeType(Arg(params, 0)))
         == Query("n8n_nodes", "*", [Eq("node_type", Arg(params, 0))], None, None, false)
  {
    var sql := "SELECT * FROM nodes WHERE node_type = ?";
    assert OccursAt(NodeTypeFilter, sql, 20);
    NodeTypeLookupTable();
  }

  /** The node-type lookup text reads the `nodes` table, renamed `n8n_nodes`. */
  lemma NodeTypeLookupTable()
    ensures TableName("SELECT * FROM nodes WHERE node_type = ?") == "n8n_nodes"
  {
    LookupTextSplits();
    SelectFromNodesThen(" WHERE node_type = ?");
  }

  lemma LookupTextSplits()
    ensures "SELECT * FROM nodes" + " WHERE node_type = ?" == "SELECT * FROM nodes WHERE node_type = ?"
  {
  }

  /** `SELECT * FROM nodes`, followed by anything that does not extend the
      word, targets `n8n_nodes`. */
  lemma SelectFromNodesThen(rest: string)
    requires rest == [] || !IsWordChar(rest[0])
    ensures TableName("SELECT * FROM nodes" + rest) == "n8n_nodes"
  {
    var p := "SELECT * ";
    var s := p + "FROM" + " " + "nodes" + rest;
    assert s == "SELECT * FROM nodes" + rest;
    forall i | 0 <= i < |p| ensures TableRefAt(s, i) == None {
      assert s[i] == p[i];
      NoReferenceAt(s, i);
    }
    assert LowerAscii("FROM") == "from";
    TableNameOfReference(p, "FROM", " ", "nodes", rest);
  }



  /** The AI-tool listing is routed to one equality filter of is_ai_tool on
      `true`, whatever the parameters, with no order and no limit. */
  lemma AiToolLookup(sql: string, params: seq<Value>, table: string)
    requires !Occurs(NodeTypeFilter, sql) && Occurs(AiToolFilter, sql)
    ensures PlanSelect(sql, params) == Success(EqAiTool)
    ensures SelectQuery(table, EqAiTool) == Query(table, "*", [Eq("is_ai_tool", Bool(true))], None, None, false)
  {
  }

  /** A SELECT that is not a COUNT answers exactly the rows the backend
      sends back for its one query, or none when it sends no data; `get`
      answers the first of them. */
  lemma AllAnswersBackendRows(stmt: Statement, params: seq<Value>, backend: Backend, plan: SelectPlan)
    requires stmt.op == Select
    requires PlanSelect(stmt.sql, params) == Success(plan) && !plan.CountAll?
    requires backend(Read(SelectQuery(stmt.table, plan))).error.None?
    ensures var rows := backend(Read(SelectQuery(stmt.table, plan))).data.GetOr([]);
      && AsyncAll(stmt, params, backend) == Success(rows)
      && AsyncGet(stmt, params, backend) == Success(if rows == [] then None else Some(rows[0]))
  {
  }

  // ---------------------------------------------------------------------------
  // INSERT

  /** The values an upserted row holds in the insert's columns, in order. */
  function ColumnValues(row: Row): seq<Value>
    requires forall i :: 0 <= i < |NodeColumns| ==> NodeColumns[i] in row
  {
    seq(|NodeColumns|, i requires 0 <= i < |NodeColumns| => row[NodeColumns[i]])
  }

  /** The insert's positional mapping is lossless: reading the row back in
      column order gives the first 17 parameters, `undefined` for each one
      missing. */
  lemma NodeRowRoundTrip(params: seq<Value>)
    ensures ColumnValues(NodeRow(params)) == seq(17, i requires 0 <= i < 17 => Arg(params, i))
    ensures |params| >= 17 ==> ColumnValues(NodeRow(params)) == params[..17]
  {
    NodeColumnsDistinct();
  }

  /** A successful run of an INSERT reports one change and the placeholder
      row id 0, whether the upsert inserted or replaced. */
  lemma InsertReportsOneChange(stmt: Statement, params: seq<Value>, backend: Backend)
    requires stmt.op == Insert
    requires backend(Upsert(stmt.table, NodeRow(params))).error.None?
    ensures AsyncRun(stmt, params, backend) == Success(RunResult(1, 0))
  {
  }

  // ---------------------------------------------------------------------------
  // The synchronous declarations shadow the asynchronous ones

  /** As the class keeps it, `run` loses a write the asynchronous `run`
      would have made. */
  lemma ShadowedRunLosesInsert(stmt: Statement, params: seq<Value>, backend: Backend)
    requires stmt.op == Insert
    requires backend(Upsert(stmt.table, NodeRow(params))).error.None?
    ensures AsyncRun(stmt, params, backend).Success?
    ensures Run(stmt, params).Failure?
    ensures Message(Run(stmt, params).error)
         == "Synchronous " + "run" + "() not supported with Supabase. Use async operations."
  {
  }

  /** As the class keeps them, `get` and `all` lose rows the asynchronous
      forms would have returned. */
  lemma ShadowedGetAllLoseRows(stmt: Statement, params: seq<Value>, backend: Backend)
    requires stmt.op == Select && SelectRows(stmt, params, backend).Success?
    requires SelectRows(stmt, params, backend).value != []
    ensures AsyncGet(stmt, params, backend) == Success(Some(SelectRows(stmt, params, backend).value[0]))
    ensures AsyncAll(stmt, params, backend).Success?
    ensures Get(stmt, params).Failure? && All(stmt, params).Failure?
    ensures Message(Get(stmt, params).error)
         == "Synchronous " + "get" + "() not supported with Supabase. Use async operations."
    ensures Message(All(stmt, params).error)
         == "Synchronous " + "all" + "() not supported with Supabase. Use async operations."
  {
  }

  /** A keyword cannot match where the text differs from it, past ASCII
      case, at some offset. */
  lemma LetterRulesOut(s: string, i: nat, key: string, j: nat)
    requires j < |key| && i + j < |s|
    requires LowerAsciiChar(s[i + j]) != LowerAsciiChar(key[j])
    ensures !MatchesAt(s, i, key)
  {
    if i + |key| <= |s| {
      assert s[i..i + |key|][j] == s[i + j];
      assert LowerAscii(s[i..i + |key|])[j] != LowerAscii(key)[j];
    }
  }

  lemma InsertIntoNodesOperation()
    ensures Operation("INSERT INTO nodes VALUES (?)") == Insert
  {
    assert "" + "INSERT" + " INTO nodes VALUES (?)" == "INSERT INTO nodes VALUES (?)";
    OperationOfLeadingKeyword("", "INSERT", " INTO nodes VALUES (?)", Insert);
  }

  /** INTO cannot match at an `INS` (it differs in its third letter), nor
      FROM or UPDATE at an I. */
  lemma NoReferenceAtInsert(s: string)
    requires |s| > 2 && s[0] == 'I' && s[2] == 'S'
    ensures TableRefAt(s, 0) == None
  {
    LetterRulesOut(s, 0, "FROM", 0);
    LetterRulesOut(s, 0, "INTO", 2);
    LetterRulesOut(s, 0, "UPDATE", 0);
  }

  /** No table reference starts inside a leading `INSERT `. */
  lemma NoReferenceInInsert(s: string)
    requires |s| > 7 && s[..7] == "INSERT "
    ensures forall i :: 0 <= i < 7 ==> TableRefAt(s, i) == None
  {
    var t := s[..7];
    assert s[0] == t[0] == 'I' && s[1] == t[1] == 'N' && s[2] == t[2] == 'S';
    assert s[3] == t[3] == 'E' && s[4] == t[4] == 'R' && s[5] == t[5] == 'T' && s[6] == t[6] == ' ';
    forall i | 0 <= i < 7 ensures TableRefAt(s, i) == None {
      if i == 0 {
        NoReferenceAtInsert(s);
      } else {
        NoReferenceAt(s, i);
      }
    }
  }

  lemma InsertIntoNodesTable()
    ensures TableName("INSERT INTO nodes VALUES (?)") == "n8n_nodes"
  {
    var p := "INSERT ";
    var s := p + "INTO" + " " + "nodes" + " VALUES (?)";
    assert s == "INSERT INTO nodes VALUES (?)";
    assert s[..7] == p;
    NoReferenceInInsert(s);
    assert LowerAscii("INTO") == "into";
    TableNameOfReference(p, "INTO", " ", "nodes", " VALUES (?)");
  }

  /** `INSERT INTO nodes VALUES (?)` prepares an INSERT into `n8n_nodes`. */
  lemma InsertIntoNodesStatement()
    ensures Prepare("INSERT INTO nodes VALUES (?)").op == Insert
    ensures Prepare("INSERT INTO nodes VALUES (?)").table == "n8n_nodes"
  {
    InsertIntoNodesOperation();
    InsertIntoNodesTable();
  }

  /** A concrete insert: prepared from `INSERT INTO nodes VALUES (?)`, the
      asynchronous run writes to `n8n_nodes` and succeeds, the kept one
      throws. */
  lemma ShadowedRunExample(backend: Backend)
    requires backend(Upsert("n8n_nodes", NodeRow([]))).error.None?
    ensures AsyncRun(Prepare("INSERT INTO nodes VALUES (?)"), [], backend) == Success(RunResult(1, 0))
    ensures Run(Prepare("INSERT INTO nodes VALUES (?)"), []) == Failure(SynchronousCall(RunCall))
  {
    InsertIntoNodesStatement();
  }
}
