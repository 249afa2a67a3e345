/** The IMAP SEARCH criteria that `_fetch_outlook_code` builds; what that
    token list means when it is read as search keys under the grammar of
    section 6.4.4 of RFC 3501 (`OR` is a prefix operator over two keys;
    several keys in a row must all match), each list item taken as one
    token; and how imaplib turns the list into a command, which is where
    the code as written fails. imaplib also joins its arguments unquoted,
    so an item holding a space would reach a server as two tokens. */
module ImapSearch {
  import opened Wrappers
  import opened PyText

  /** The tokens one keyword adds: `['OR', 'SUBJECT', k, 'BODY', k]`. */
  function KeywordClause(k: string): seq<string>
  {
    ["OR", "SUBJECT", k, "BODY", k]
  }

  /** All keyword clauses, in keyword order. */
  function Clauses(keywords: seq<string>): (r: seq<string>)
    ensures |r| == 5 * |keywords|
  {
    if keywords == [] then [] else KeywordClause(keywords[0]) + Clauses(keywords[1..])
  }

  /** The list after the first token is dropped (an empty list stays empty). */
  function Criteria(keywords: seq<string>): (r: seq<string>)
    ensures keywords == [] ==> r == []
    ensures keywords != [] ==> |r| == 5 * |keywords| - 1 && r[0] == "SUBJECT"
  {
    var tokens := Clauses(keywords);
    if tokens == [] then [] else tokens[1..]
  }

  lemma {:induction false} ClausesAppend(keywords: seq<string>, k: string)
    ensures Clauses(keywords + [k]) == Clauses(keywords) + KeywordClause(k)
  {
    if keywords != [] {
      assert (keywords + [k])[1..] == keywords[1..] + [k];
      ClausesAppend(keywords[1..], k);
    }
  }

  /** The search-criteria loop: extend a list with each keyword's clause,
      then drop the first token. */
  method BuildSearchCriteria(keywords: seq<string>) returns (criteria: seq<string>)
    ensures criteria == Criteria(keywords)
  {
    var tokens: seq<string> := [];
    for n := 0 to |keywords|
      invariant tokens == Clauses(keywords[..n])
    {
      ClausesAppend(keywords[..n], keywords[n]);
      assert keywords[..n + 1] == keywords[..n] + [keywords[n]];
      tokens := tokens + KeywordClause(keywords[n]);
    }
    assert keywords[..|keywords|] == keywords;
    criteria := if tokens != [] then tokens[1..] else [];
  }

  /** Keyword `k`'s block sits at position 5*i of the criteria list: preceded
      by 'OR' unless it is the first, then SUBJECT k BODY k. */
  predicate HasBlock(criteria: seq<string>, i: nat, k: string)
  {
    5 * i + 3 < |criteria|
    && (i > 0 ==> criteria[5 * i - 1] == "OR")
    && criteria[5 * i] == "SUBJECT" && criteria[5 * i + 1] == k
    && criteria[5 * i + 2] == "BODY" && criteria[5 * i + 3] == k
  }

  lemma {:induction false} ClausesLayout(keywords: seq<string>)
    ensures |Clauses(keywords)| == 5 * |keywords|
    ensures forall i :: 0 <= i < |keywords| ==>
      Clauses(keywords)[5 * i..5 * i + 5] == KeywordClause(keywords[i])
  {
    if keywords != [] {
      ClausesLayout(keywords[1..]);
      var c := Clauses(keywords);
      forall i | 0 <= i < |keywords|
        ensures c[5 * i..5 * i + 5] == KeywordClause(keywords[i])
      {
        if i > 0 {
          assert c[5 * i..5 * i + 5] == Clauses(keywords[1..])[5 * (i - 1)..5 * (i - 1) + 5];
        }
      }
    }
  }

  /** The criteria list has 5k-1 tokens for k >= 1 keywords (none for no
      keyword), starts with 'SUBJECT', and holds every keyword's block in
      order. */
  lemma CriteriaLayout(keywords: seq<string>)
    ensures |keywords| == 0 ==> Criteria(keywords) == []
    ensures |keywords| > 0 ==> |Criteria(keywords)| == 5 * |keywords| - 1
    ensures |keywords| > 0 ==> Criteria(keywords)[0] == "SUBJECT"
    ensures forall i :: 0 <= i < |keywords| ==> HasBlock(Criteria(keywords), i, keywords[i])
  {
    ClausesLayout(keywords);
    var c := Clauses(keywords);
    forall i | 0 <= i < |keywords|
      ensures HasBlock(Criteria(keywords), i, keywords[i])
    {
      ClauseTokens(keywords, i);
      var t := Criteria(keywords);
      assert t == c[1..];
      assert i > 0 ==> t[5 * i - 1] == c[5 * i];
      assert t[5 * i] == c[5 * i + 1] && t[5 * i + 1] == c[5 * i + 2];
      assert t[5 * i + 2] == c[5 * i + 3] && t[5 * i + 3] == c[5 * i + 4];
    }
    if |keywords| > 0 {
      ClauseTokens(keywords, 0);
    }
  }

  /** The five tokens of keyword `i`'s clause, one by one. */
  lemma ClauseTokens(keywords: seq<string>, i: nat)
    requires i < |keywords|
    ensures |Clauses(keywords)| == 5 * |keywords| && 5 * i + 4 < |Clauses(keywords)|
    ensures var c := Clauses(keywords);
      && c[5 * i] == "OR" && c[5 * i + 1] == "SUBJECT" && c[5 * i + 2] == keywords[i]
      && c[5 * i + 3] == "BODY" && c[5 * i + 4] == keywords[i]
  {
    ClausesLayout(keywords);
    var c := Clauses(keywords);
    var b := c[5 * i..5 * i + 5];
    assert b == KeywordClause(keywords[i]);
    assert b[0] == c[5 * i] && b[1] == c[5 * i + 1] && b[2] == c[5 * i + 2];
    assert b[3] == c[5 * i + 3] && b[4] == c[5 * i + 4];
  }

  // ---------------------------------------------------------------------
  // Meaning of a token list as IMAP search keys.

  datatype SearchKey = Subject(text: string) | Body(text: string) | Or(left: SearchKey, right: SearchKey)

  /** A message as the search sees it. Real servers compare case-insensitively;
      this model uses exact substrings. */
  datatype Message = Message(subject: string, body: string)

  predicate Matches(key: SearchKey, m: Message)
  {
    match key
    case Subject(t) => Contains(m.subject, t)
    case Body(t) => Contains(m.body, t)
    case Or(l, r) => Matches(l, m) || Matches(r, m)
  }

  /** A list of keys selects a message when every key matches it. */
  predicate SatisfiesAll(keys: seq<SearchKey>, m: Message)
  {
    forall i :: 0 <= i < |keys| ==> Matches(keys[i], m)
  }

  /** Parse one search key from the front of `tokens`; the count says how many
      tokens it used. */
  function ParseKey(tokens: seq<string>): (r: Option<(SearchKey, nat)>)
    ensures r.Some? ==> 0 < r.value.1 <= |tokens|
    decreases |tokens|
  {
    if |tokens| == 0 then None
    else if tokens[0] == "OR" then
      match ParseKey(tokens[1..])
      case None => None
      case Some(left) =>
        match ParseKey(tokens[1 + left.1..])
        case None => None
        case Some(right) => Some((Or(left.0, right.0), 1 + left.1 + right.1))
    else if |tokens| >= 2 && tokens[0] == "SUBJECT" then Some((Subject(tokens[1]), 2))
    else if |tokens| >= 2 && tokens[0] == "BODY" then Some((Body(tokens[1]), 2))
    else None
  }

  /** Parse a whole token list as a sequence of keys. */
  function ParseKeys(tokens: seq<string>): Option<seq<SearchKey>>
    decreases |tokens|
  {
    if tokens == [] then Some([])
    else match ParseKey(tokens)
      case None => None
      case Some(first) =>
        match ParseKeys(tokens[first.1..])
        case None => None
        case Some(rest) => Some([first.0] + rest)
  }

  /** `OR SUBJECT k BODY k` followed by anything parses as one key. */
  lemma ParseClause(k: string, rest: seq<string>)
    ensures ParseKey(KeywordClause(k) + rest) == Some((Or(Subject(k), Body(k)), 5))
  {
    var t := KeywordClause(k) + rest;
    assert t[1..] == ["SUBJECT", k] + (["BODY", k] + rest);
    assert t[3..] == ["BODY", k] + rest;
  }

  /** The keys a run of whole clauses parses into: one pair
      `OR SUBJECT k BODY k` per keyword. */
  function PairKeys(keywords: seq<string>): (keys: seq<SearchKey>)
    ensures |keys| == |keywords|
    ensures forall i :: 0 <= i < |keywords| ==> keys[i] == Or(Subject(keywords[i]), Body(keywords[i]))
  {
    if keywords == [] then [] else [Or(Subject(keywords[0]), Body(keywords[0]))] + PairKeys(keywords[1..])
  }

  lemma {:induction false} ParseClauses(keywords: seq<string>)
    ensures ParseKeys(Clauses(keywords)) == Some(PairKeys(keywords))
  {
    if keywords != [] {
      var t := Clauses(keywords);
      ParseClause(keywords[0], Clauses(keywords[1..]));
      assert t[5..] == Clauses(keywords[1..]);
      ParseClauses(keywords[1..]);
    }
  }

  /** The keys the criteria list parses into: SUBJECT k0, BODY k0, and then
      one OR-pair per further keyword, all of them required. */
  function CriteriaKeys(keywords: seq<string>): seq<SearchKey>
    requires |keywords| > 0
  {
    [Subject(keywords[0]), Body(keywords[0])] + PairKeys(keywords[1..])
  }

  lemma {:induction false} CriteriaParse(keywords: seq<string>)
    requires |keywords| > 0
    ensures ParseKeys(Criteria(keywords)) == Some(CriteriaKeys(keywords))
  {
    var k := keywords[0];
    var rest := Clauses(keywords[1..]);
    var c := Criteria(keywords);
    assert Clauses(keywords) == KeywordClause(k) + rest;
    assert c == ["SUBJECT", k, "BODY", k] + rest;
    assert ParseKey(c) == Some((Subject(k), 2));
    var c2 := c[2..];
    assert c2 == ["BODY", k] + rest;
    assert ParseKey(c2) == Some((Body(k), 2));
    assert c2[2..] == rest;
    ParseClauses(keywords[1..]);
    assert ParseKeys(c2) == Some([Body(k)] + PairKeys(keywords[1..]));
    assert ParseKeys(c) == Some([Subject(k)] + ([Body(k)] + PairKeys(keywords[1..])));
    assert [Subject(k)] + ([Body(k)] + PairKeys(keywords[1..])) == CriteriaKeys(keywords);
  }

  /** Under RFC 3501 the list the source sends selects a message exactly when
      its subject AND its body both contain the first keyword and every later
      keyword occurs in the subject or the body: a conjunction, not an OR over
      all keyword and field pairs. */
  lemma CriteriaMeaning(keywords: seq<string>, m: Message)
    requires |keywords| > 0
    ensures ParseKeys(Criteria(keywords)).Some?
    ensures SatisfiesAll(ParseKeys(Criteria(keywords)).value, m) <==>
      && Contains(m.subject, keywords[0]) && Contains(m.body, keywords[0])
      && forall i :: 1 <= i < |keywords| ==> Contains(m.subject, keywords[i]) || Contains(m.body, keywords[i])
  {
    CriteriaParse(keywords);
    var keys := CriteriaKeys(keywords);
    forall i | 1 <= i < |keywords|
      ensures keys[i + 1] == Or(Subject(keywords[i]), Body(keywords[i]))
    {
      assert keys[i + 1] == PairKeys(keywords[1..])[i - 1];
      assert keywords[1..][i - 1] == keywords[i];
    }
    if SatisfiesAll(keys, m) {
      forall i | 1 <= i < |keywords|
        ensures Contains(m.subject, keywords[i]) || Contains(m.body, keywords[i])
      {
        assert Matches(keys[i + 1], m);
        assert Matches(Or(Subject(keywords[i]), Body(keywords[i])), m);
        assert Matches(Subject(keywords[i]), m) || Matches(Body(keywords[i]), m);
      }
      assert Matches(keys[0], m) && Matches(keys[1], m);
    }
    if && Contains(m.subject, keywords[0]) && Contains(m.body, keywords[0])
       && forall i :: 1 <= i < |keywords| ==> Contains(m.subject, keywords[i]) || Contains(m.body, keywords[i])
    {
      forall j | 0 <= j < |keys| ensures Matches(keys[j], m) {
        if j >= 2 {
          assert Matches(Or(Subject(keywords[j - 1]), Body(keywords[j - 1])), m);
        }
      }
    }
  }

  /** Some keyword occurs in the subject or in the body. */
  predicate AnyKeyword(keywords: seq<string>, m: Message)
  {
    exists i :: 0 <= i < |keywords| && (Contains(m.subject, keywords[i]) || Contains(m.body, keywords[i]))
  }

  /** A message with the first keyword in its subject but an empty body is
      not selected by the criteria list, though it contains a keyword. */
  lemma CriteriaMissSubjectOnlyMatch(keywords: seq<string>)
    requires |keywords| > 0 && |keywords[0]| > 0
    ensures ParseKeys(Criteria(keywords)).Some?
    ensures var m := Message(keywords[0], "");
      AnyKeyword(keywords, m) && !SatisfiesAll(ParseKeys(Criteria(keywords)).value, m)
  {
    var m := Message(keywords[0], "");
    CriteriaMeaning(keywords, m);
    assert OccursAt(m.subject, keywords[0], 0);
    assert !OccursAt(m.body, keywords[0], 0);
  }

  // ---------------------------------------------------------------------
  // imaplib's command encoding.

  /** A character the ASCII codec can encode. */
  predicate IsAscii(c: char)
  {
    c as int < 128
  }

  /** Position of the first character at or after `from` that the ASCII
      codec cannot encode. */
  function FirstNonAscii(s: string, from: nat): (r: Option<nat>)
    ensures r.Some? ==> from <= r.value < |s| && !IsAscii(s[r.value])
    ensures r.Some? ==> forall j :: from <= j < r.value ==> IsAscii(s[j])
    ensures r.None? ==> forall j :: from <= j < |s| ==> IsAscii(s[j])
    decreases |s| - from
  {
    if from >= |s| then None
    else if !IsAscii(s[from]) then Some(from)
    else FirstNonAscii(s, from + 1)
  }

  /** The codec reports the whole run of unencodable characters that starts
      at `start`: this is the end of that run. */
  function RunEnd(s: string, start: nat): (e: nat)
    requires start < |s| && !IsAscii(s[start])
    ensures start < e <= |s|
    ensures forall j :: start <= j < e ==> !IsAscii(s[j])
    ensures e < |s| ==> IsAscii(s[e])
    decreases |s| - start
  {
    if start + 1 < |s| && !IsAscii(s[start + 1]) then RunEnd(s, start + 1) else start + 1
  }

  /** `'%0*x' % (width, n)` for an `n` below `16^width`. */
  function LowerHex(n: nat, width: nat): (r: string)
    ensures |r| == width
    ensures forall k :: 0 <= k < |r| ==> r[k] in "0123456789abcdef"
  {
    if width == 0 then "" else LowerHex(n / 16, width - 1) + ["0123456789abcdef"[n % 16]]
  }

  /** How the error message shows one unencodable character: `\xhh`,
      `\uhhhh` or `\Uhhhhhhhh`. */
  function CharEscape(c: char): string
  {
    if c as int <= 0xff then "\\x" + LowerHex(c as int, 2)
    else if c as int <= 0xffff then "\\u" + LowerHex(c as int, 4)
    else "\\U" + LowerHex(c as int, 8)
  }

  /** `str()` of the UnicodeEncodeError that `bytes(s, 'ascii')` raises when
      `s[start]` is the first character it cannot encode. */
  function AsciiEncodeError(s: string, start: nat): (msg: string)
    requires start < |s| && !IsAscii(s[start])
    ensures 27 < |msg| && msg[..27] == "'ascii' codec can't encode "
  {
    var end := RunEnd(s, start);
    var what :=
      if end - start == 1 then "character '" + CharEscape(s[start]) + "' in position " + DecimalString(start)
      else "characters in position " + DecimalString(start) + "-" + DecimalString(end - 1);
    "'ascii' codec can't encode " + what + ": ordinal not in range(128)"
  }

  /** Index of the first argument at or after `from` that holds a character
      the ASCII codec cannot encode. */
  function FirstUnencodableArg(args: seq<string>, from: nat): (r: Option<nat>)
    ensures r.Some? ==> from <= r.value < |args| && FirstNonAscii(args[r.value], 0).Some?
    ensures r.Some? ==> forall j :: from <= j < r.value ==> FirstNonAscii(args[j], 0).None?
    ensures r.None? ==> forall j :: from <= j < |args| ==> FirstNonAscii(args[j], 0).None?
    decreases |args| - from
  {
    if from >= |args| then None
    else if FirstNonAscii(args[from], 0).Some? then Some(from)
    else FirstUnencodableArg(args, from + 1)
  }

  /** imaplib's `_command` in its default ASCII mode (the mode every
      connection starts in, left only by `enable('UTF8=ACCEPT')`): each
      argument goes through `bytes(arg, 'ascii')` in order, and the first one
      that cannot be encoded raises before anything is sent. None when every
      argument encodes. */
  function CommandEncodingError(args: seq<string>): (r: Option<string>)
    ensures r.None? <==> forall j, k :: 0 <= j < |args| && 0 <= k < |args[j]| ==> IsAscii(args[j][k])
  {
    match FirstUnencodableArg(args, 0)
    case None => None
    case Some(i) =>
      var bad := FirstNonAscii(args[i], 0).value;
      Some(AsciiEncodeError(args[i], bad))
  }
}
