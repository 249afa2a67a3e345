/** `EmailHandler`: dispatch on the account's type tag, the four retrieval
    paths, and the keyword-based code extractor. Every network answer is a
    parameter: a server is a function from the request it receives to its
    reply, so the contracts can say which message was read. */
module EmailHandler {
  import opened Wrappers
  import opened PyText
  import opened Accounts
  import ImapSearch

  /** `CODE_KEYWORDS`, in its scan order. */
  const CodeKeywords: seq<string> :=
    ["验证", "验证码", "注册码", "Verification", "Verification Code", "Registration Code"]
  /** The excerpt returned when no keyword occurs. */
  const NoCoreContent: string := "找到关键词邮件，但未提取到相关核心内容"
  /** Characters of context kept on each side of the keyword. */
  const ContextRadius: nat := 100

  const OutlookImapServer: string := "imap-mail.outlook.com"
  const OutlookImapPort: nat := 993

  const NoMail: string := "未找到邮件"
  const NoRelatedMail: string := "未找到相关邮件"
  const BadAddress: string := "邮箱格式错误"

  /** `{"success": True, "related": ..., "full": ...}` or
      `{"success": False, "message": ...}`. */
  datatype CodeResult = CodeFound(related: string, full: string) | CodeFailed(message: string)

  // ---------------------------------------------------------------------
  // Code extractor.

  /** The first keyword at or after position `from` of `keywords`, in list
      order, that occurs anywhere in `text`. */
  function FirstKeywordFrom(keywords: seq<string>, text: string, from: nat): (r: Option<nat>)
    ensures r.Some? ==> from <= r.value < |keywords| && Contains(text, keywords[r.value])
    ensures r.Some? ==> forall j :: from <= j < r.value ==> !Contains(text, keywords[j])
    ensures r.None? ==> forall j :: from <= j < |keywords| ==> !Contains(text, keywords[j])
    decreases |keywords| - from
  {
    if from >= |keywords| then None
    else if Contains(text, keywords[from]) then Some(from)
    else FirstKeywordFrom(keywords, text, from + 1)
  }

  /** Position in `CodeKeywords` of the keyword the extractor uses. */
  function MatchedKeyword(text: string): (r: Option<nat>)
    ensures r.Some? ==> r.value < |CodeKeywords| && Contains(text, CodeKeywords[r.value])
    ensures r.Some? ==> forall j :: 0 <= j < r.value ==> !Contains(text, CodeKeywords[j])
    ensures r.None? ==> forall j :: 0 <= j < |CodeKeywords| ==> !Contains(text, CodeKeywords[j])
  {
    FirstKeywordFrom(CodeKeywords, text, 0)
  }

  /** `start = max(0, idx - 100)`, `end = min(len, idx + klen + 100)`: the
      window keeps the keyword and at most 100 characters on each side,
      exactly 100 unless the text ends first. */
  function ExcerptWindow(len: nat, idx: nat, klen: nat): (w: (nat, nat))
    requires idx + klen <= len
    ensures w.0 <= idx && idx + klen <= w.1 <= len
    ensures idx - w.0 <= ContextRadius && (w.0 > 0 ==> idx - w.0 == ContextRadius)
    ensures w.1 - (idx + klen) <= ContextRadius && (w.1 < len ==> w.1 - (idx + klen) == ContextRadius)
  {
    var start := if idx >= ContextRadius then idx - ContextRadius else 0;
    var end := if idx + klen + ContextRadius <= len then idx + klen + ContextRadius else len;
    (start, end)
  }

  /** `_extract_code_content`: always a success that echoes the text; the
      excerpt is the stripped window around the first occurrence of the first
      listed keyword present, or the fixed sentinel when none is. */
  function ExtractCodeContent(text: string): (r: CodeResult)
    ensures r.CodeFound? && r.full == text
    ensures (forall j :: 0 <= j < |CodeKeywords| ==> !Contains(text, CodeKeywords[j])) ==>
      r.related == NoCoreContent
  {
    match MatchedKeyword(text)
    case None => CodeFound(NoCoreContent, text)
    case Some(j) =>
      var k := CodeKeywords[j];
      var idx := Find(text, k).value;
      var w := ExcerptWindow(|text|, idx, |k|);
      CodeFound(Strip(text[w.0..w.1]), text)
  }

  lemma KeywordEndsAreVisible(j: nat)
    requires j < |CodeKeywords|
    ensures |CodeKeywords[j]| > 0
    ensures !IsWhitespace(CodeKeywords[j][0]) && !IsWhitespace(CodeKeywords[j][|CodeKeywords[j]| - 1])
  {
  }

  /** Stripping the window around an occurrence of a keyword whose ends are
      not whitespace keeps the keyword; the excerpt starts at `p`, just
      after the window's leading whitespace. */
  lemma {:induction false} WindowKeepsKeyword(text: string, k: string, idx: nat) returns (p: nat)
    requires OccursAt(text, k, idx) && |k| > 0
    requires !IsWhitespace(k[0]) && !IsWhitespace(k[|k| - 1])
    ensures var w := ExcerptWindow(|text|, idx, |k|);
      var r := Strip(text[w.0..w.1]);
      && OccursAt(text, r, p)
      && p <= idx && idx - p <= ContextRadius
      && p + |r| <= idx + |k| + ContextRadius
      && OccursAt(r, k, idx - p)
      && p == w.0 + LeadingSpace(text[w.0..w.1])
  {
    var w := ExcerptWindow(|text|, idx, |k|);
    StripSliceKeepsOccurrence(text, k, w.0, w.1, idx);
    var lead := LeadingSpace(text[w.0..w.1]);
    p := w.0 + lead;
    assert idx - p == idx - w.0 - lead;
  }

  /** The extractor uses keyword `j` exactly when it is the first listed
      keyword present in the text. */
  lemma MatchedKeywordIsFirstPresent(text: string, j: nat)
    requires j < |CodeKeywords| && Contains(text, CodeKeywords[j])
    requires forall i :: 0 <= i < j ==> !Contains(text, CodeKeywords[i])
    ensures MatchedKeyword(text) == Some(j)
  {
  }

  /** The excerpt is the part of the text around the first occurrence `idx`
      of the chosen keyword: it starts at `p`, no more than 100 characters
      before `idx`, ends no more than 100 characters after the keyword, and
      contains the keyword at `idx`. It is all of the clamped window but
      the whitespace at the window's edges, so it keeps every visible
      character of context, where the code sits. */
  lemma ExcerptAroundFirstOccurrence(text: string, j: nat) returns (p: nat)
    requires j < |CodeKeywords| && Contains(text, CodeKeywords[j])
    requires forall i :: 0 <= i < j ==> !Contains(text, CodeKeywords[i])
    ensures var r := ExtractCodeContent(text);
      var k := CodeKeywords[j];
      var idx := Find(text, k).value;
      && OccursAt(text, r.related, p)
      && p <= idx && idx - p <= ContextRadius
      && p + |r.related| <= idx + |k| + ContextRadius
      && OccursAt(r.related, k, idx - p)
      && OccursAt(text, k, idx)
      && var w := ExcerptWindow(|text|, idx, |k|);
         IsStrippedSpan(text, w.0, w.1, p, r.related)
  {
    MatchedKeywordIsFirstPresent(text, j);
    var k := CodeKeywords[j];
    KeywordEndsAreVisible(j);
    var idx := Find(text, k).value;
    p := WindowKeepsKeyword(text, k, idx);
    var w := ExcerptWindow(|text|, idx, |k|);
    StripOfSliceIsSpan(text, w.0, w.1);
  }

  /** If `k` occurs in `s`, so does every prefix of `k`. */
  lemma PrefixAlsoOccurs(s: string, k: string, n: nat)
    requires n <= |k|
    ensures Contains(s, k) ==> Contains(s, k[..n])
  {
    if Contains(s, k) {
      var i := Find(s, k).value;
      assert s[i..i + n] == s[i..i + |k|][..n];
      assert OccursAt(s, k[..n], i);
    }
  }

  /** Because '验证' is listed before '验证码' and 'Verification' before
      'Verification Code', the longer two are never the chosen keyword. */
  lemma LongerKeywordsNeverChosen(text: string)
    ensures MatchedKeyword(text) != Some(1)
    ensures MatchedKeyword(text) != Some(4)
  {
    PrefixAlsoOccurs(text, CodeKeywords[1], 2);
    assert CodeKeywords[1][..2] == CodeKeywords[0];
    PrefixAlsoOccurs(text, CodeKeywords[4], 12);
    assert CodeKeywords[4][..12] == CodeKeywords[3];
  }

  /** The choice follows list order, not position in the text: with '注册码'
      present and '验证' absent, '注册码' is used even when 'Verification Code'
      comes earlier in the text. */
  lemma ListOrderBeatsTextOrder(text: string)
    requires Contains(text, "注册码") && !Contains(text, "验证")
    ensures MatchedKeyword(text) == Some(2)
  {
    PrefixAlsoOccurs(text, CodeKeywords[1], 2);
    assert CodeKeywords[1][..2] == CodeKeywords[0];
  }

  // ---------------------------------------------------------------------
  // Retrieval paths.

  /** The Outlook IMAP server: `login` is connect + LOGIN + SELECT inbox
      (an error text when one of them raises), `search` answers a SEARCH
      whose keys are the given criteria, and `bodyText` is FETCH (RFC822)
      of a message followed by the walk to its first text/plain part and
      its decoding; each of the last two may raise. */
  datatype OutlookImap = OutlookImap(
    login: (string, nat, string, string) -> Option<string>,
    search: seq<string> -> Attempt<SearchReply>,
    bodyText: string -> Attempt<string>)

  /** `_fetch_outlook_code` once the criteria reach the server as search
      keys: the numerically last matching id is read and its text handed to
      the extractor; whatever raises on the way becomes the failure message
      (`fetch_verification_code`'s handler). */
  function OutlookCode(info: EmailRecord, server: OutlookImap, criteria: seq<string>): (r: CodeResult)
    ensures server.login(OutlookImapServer, OutlookImapPort, info.email, info.password).Some? ==>
      r == CodeFailed(server.login(OutlookImapServer, OutlookImapPort, info.email, info.password).value)
    ensures server.login(OutlookImapServer, OutlookImapPort, info.email, info.password).None? ==>
      var reply := server.search(criteria);
      && (reply.Threw? ==> r == CodeFailed(reply.error))
      && (reply.Returned? && (!reply.value.ok || reply.value.ids == []) ==> r == CodeFailed(NoRelatedMail))
      && (reply.Returned? && reply.value.ok && reply.value.ids != [] ==>
            var body := server.bodyText(reply.value.ids[|reply.value.ids| - 1]);
            && (body.Threw? ==> r == CodeFailed(body.error))
            && (body.Returned? ==> r == ExtractCodeContent(body.value)))
  {
    match server.login(OutlookImapServer, OutlookImapPort, info.email, info.password)
    case Some(e) => CodeFailed(e)
    case None =>
      match server.search(criteria)
      case Threw(e) => CodeFailed(e)
      case Returned(reply) =>
        if !reply.ok || reply.ids == [] then CodeFailed(NoRelatedMail)
        else
          match server.bodyText(reply.ids[|reply.ids| - 1])
          case Threw(e) => CodeFailed(e)
          case Returned(text) => ExtractCodeContent(text)
  }

  /** The text of the UnicodeEncodeError raised by encoding `'验证'`, the
      second criteria token, with the ASCII codec. */
  const AsciiSearchError: string :=
    "'ascii' codec can't encode " + ("characters in position " + "0" + "-" + "1") + ": ordinal not in range(128)"

  /** `_fetch_outlook_code` as written: after LOGIN and SELECT,
      `mail.search(None, *search_criteria)` passes the criteria through
      imaplib's ASCII command encoding before anything is sent. */
  function OutlookCodeAsWritten(info: EmailRecord, server: OutlookImap): (r: CodeResult)
    ensures server.login(OutlookImapServer, OutlookImapPort, info.email, info.password).Some? ==>
      r == CodeFailed(server.login(OutlookImapServer, OutlookImapPort, info.email, info.password).value)
    ensures server.login(OutlookImapServer, OutlookImapPort, info.email, info.password).None? ==>
      var failed := ImapSearch.CommandEncodingError(ImapSearch.Criteria(CodeKeywords));
      && (failed.Some? ==> r == CodeFailed(failed.value))
      && (failed.None? ==> r == OutlookCode(info, server, ImapSearch.Criteria(CodeKeywords)))
  {
    match server.login(OutlookImapServer, OutlookImapPort, info.email, info.password)
    case Some(e) => CodeFailed(e)
    case None =>
      var criteria := ImapSearch.Criteria(CodeKeywords);
      match ImapSearch.CommandEncodingError(criteria)
      case Some(e) => CodeFailed(e)
      case None => OutlookCode(info, server, criteria)
  }

  /** The criteria list cannot be encoded: its first token `SUBJECT` is
      ASCII, its second `'验证'` is not, and the error names that token's
      two characters. */
  lemma CriteriaFailAsciiEncoding()
    ensures ImapSearch.CommandEncodingError(ImapSearch.Criteria(CodeKeywords)) == Some(AsciiSearchError)
  {
    var c := ImapSearch.Criteria(CodeKeywords);
    ImapSearch.CriteriaLayout(CodeKeywords);
    assert ImapSearch.HasBlock(c, 0, CodeKeywords[0]);
    assert c[0] == "SUBJECT" && c[1] == "验证";
    assert forall k :: 0 <= k < |c[0]| ==> ImapSearch.IsAscii(c[0][k]);
    assert ImapSearch.FirstNonAscii(c[0], 0).None?;
    assert ImapSearch.FirstNonAscii(c[1], 0) == Some(0);
    assert ImapSearch.FirstUnencodableArg(c, 1) == Some(1);
    assert ImapSearch.FirstUnencodableArg(c, 0) == Some(1);
    assert ImapSearch.RunEnd(c[1], 1) == 2;
    assert ImapSearch.RunEnd(c[1], 0) == 2;
    assert DecimalString(0) == "0" && DecimalString(1) == "1";
  }

  /** As written, the Outlook path never finds a code: every account whose
      login succeeds fails with the encoding error. */
  lemma OutlookAsWrittenNeverFindsCode(info: EmailRecord, server: OutlookImap)
    ensures OutlookCodeAsWritten(info, server).CodeFailed?
    ensures server.login(OutlookImapServer, OutlookImapPort, info.email, info.password).None? ==>
      OutlookCodeAsWritten(info, server) == CodeFailed(AsciiSearchError)
  {
    CriteriaFailAsciiEncoding();
  }

  /** `_fetch_outlook_code`: builds the search criteria from `CODE_KEYWORDS`
      and searches with them. */
  method FetchOutlookCode(info: EmailRecord, server: OutlookImap) returns (r: CodeResult)
    ensures r == OutlookCode(info, server, ImapSearch.Criteria(CodeKeywords))
  {
    var criteria := ImapSearch.BuildSearchCriteria(CodeKeywords);
    r := OutlookCode(info, server, criteria);
  }

  /** `_fetch_outlook_code` as written: LOGIN and SELECT, the keyword loop,
      then `mail.search`, which raises in imaplib's ASCII encoding before the
      criteria reach the server. */
  method FetchOutlookCodeAsWritten(info: EmailRecord, server: OutlookImap) returns (r: CodeResult)
    ensures r == OutlookCodeAsWritten(info, server)
    ensures r.CodeFailed?
  {
    OutlookAsWrittenNeverFindsCode(info, server);
    match server.login(OutlookImapServer, OutlookImapPort, info.email, info.password) {
      case Some(e) =>
        r := CodeFailed(e);
      case None =>
        var criteria := ImapSearch.BuildSearchCriteria(CodeKeywords);
        var failed := ImapSearch.CommandEncodingError(criteria);
        r := if failed.Some? then CodeFailed(failed.value) else OutlookCode(info, server, criteria);
    }
  }

  /** mail.tm: `messages` lists message ids for an Authorization header,
      `message` reads one message by id with that header. */
  datatype MailTmApi = MailTmApi(
    messages: string -> Http<seq<string>>,
    message: (string, string) -> Http<MailTmMessage>)

  datatype MailTmMessage = MailTmMessage(text: Option<string>, html: seq<string>)

  /** `msg_data.get("text") or "\n".join(msg_data.get("html", [])) or ""`. */
  function MailTmContent(m: MailTmMessage): (r: string)
    ensures Truthy(m.text) ==> r == m.text.value
    ensures r == "" <==> !Truthy(m.text) && (m.html == [] || m.html == [""])
  {
    if Truthy(m.text) then m.text.value else Join("\n", m.html)
  }

  /** `f"Bearer {email_info.get('token')}"`. */
  function BearerHeader(info: EmailRecord): (r: string)
    ensures |r| >= 7 && r[..7] == "Bearer "
    ensures GetExtra(info, "token").Some? ==> r[7..] == GetExtra(info, "token").value
    ensures GetExtra(info, "token").None? ==> r == "Bearer None"
  {
    "Bearer " + OptionText(GetExtra(info, "token"))
  }

  /** `_fetch_mail_tm_code`: the LAST listed message is read. */
  function FetchMailTmCode(info: EmailRecord, api: MailTmApi): (r: CodeResult)
    ensures var list := api.messages(BearerHeader(info));
      && (list.Responded? && list.status != 200 ==>
            r == CodeFailed("获取邮件列表失败：" + DecimalString(list.status)))
      && (list == Responded(200, []) ==> r == CodeFailed(NoMail))
      && (r.CodeFound? <==>
            list.Responded? && list.status == 200 && |list.body| > 0
            && api.message(list.body[|list.body| - 1], BearerHeader(info)).Responded?)
      && (r.CodeFound? ==>
            r == ExtractCodeContent(MailTmContent(api.message(list.body[|list.body| - 1], BearerHeader(info)).body)))
  {
    var header := BearerHeader(info);
    match api.messages(header)
    case Raised(e) => CodeFailed(e)
    case Responded(status, ids) =>
      if status != 200 then CodeFailed("获取邮件列表失败：" + DecimalString(status))
      else if ids == [] then CodeFailed(NoMail)
      else
        match api.message(ids[|ids| - 1], header)
        case Raised(e) => CodeFailed(e)
        case Responded(_, m) => ExtractCodeContent(MailTmContent(m))
  }

  /** 1secmail: `messages` is getMessages for a login and domain (message
      ids), `readMessage` is readMessage for login, domain and id. */
  datatype SecMailApi = SecMailApi(
    messages: (string, string) -> Http<seq<string>>,
    readMessage: (string, string, string) -> Http<SecMailMessage>)

  datatype SecMailMessage = SecMailMessage(textBody: Option<string>, body: Option<string>)

  /** `msg_data.get("textBody") or msg_data.get("body") or ""`. */
  function SecMailContent(m: SecMailMessage): (r: string)
    ensures Truthy(m.textBody) ==> r == m.textBody.value
    ensures !Truthy(m.textBody) && Truthy(m.body) ==> r == m.body.value
    ensures r == "" <==> !Truthy(m.textBody) && !Truthy(m.body)
  {
    if Truthy(m.textBody) then m.textBody.value else if Truthy(m.body) then m.body.value else ""
  }

  /** `_fetch_1secmail_code`: the address is split at its first '@'; the LAST
      listed message is read. */
  function Fetch1secmailCode(info: EmailRecord, api: SecMailApi): (r: CodeResult)
    ensures '@' !in info.email ==> r == CodeFailed(BadAddress)
    ensures '@' in info.email ==>
      var parts := SplitOnce(info.email, '@').value;
      var list := api.messages(parts.0, parts.1);
      && (list.Responded? && list.status != 200 ==>
            r == CodeFailed("获取列表失败：" + DecimalString(list.status)))
      && (list == Responded(200, []) ==> r == CodeFailed(NoMail))
      && (r.CodeFound? <==>
            list.Responded? && list.status == 200 && |list.body| > 0
            && api.readMessage(parts.0, parts.1, list.body[|list.body| - 1]).Responded?)
      && (r.CodeFound? ==>
            r == ExtractCodeContent(SecMailContent(api.readMessage(parts.0, parts.1, list.body[|list.body| - 1]).body)))
  {
    match SplitOnce(info.email, '@')
    case None => CodeFailed(BadAddress)
    case Some(parts) =>
      var (login, domain) := parts;
      match api.messages(login, domain)
      case Raised(e) => CodeFailed(e)
      case Responded(status, ids) =>
        if status != 200 then CodeFailed("获取列表失败：" + DecimalString(status))
        else if ids == [] then CodeFailed(NoMail)
        else
          match api.readMessage(login, domain, ids[|ids| - 1])
          case Raised(e) => CodeFailed(e)
          case Responded(_, m) => ExtractCodeContent(SecMailContent(m))
  }

  /** GuerrillaMail: `checkEmail` is check_email for a session token and a
      sequence cursor (mail ids of `list`), `fetchEmail` is fetch_email for a
      session token and mail id (its `mail_body`, "" when absent). */
  datatype GuerrillaApi = GuerrillaApi(
    checkEmail: (Option<string>, nat) -> Http<seq<string>>,
    fetchEmail: (Option<string>, string) -> Http<string>)

  /** `_fetch_guerrillamail_code`: listed from cursor 0, and the FIRST listed
      message is read. */
  function FetchGuerrillamailCode(info: EmailRecord, api: GuerrillaApi): (r: CodeResult)
    ensures var sid := GetExtra(info, "sid_token");
      var list := api.checkEmail(sid, 0);
      && (list.Responded? && list.status != 200 ==>
            r == CodeFailed("获取列表失败：" + DecimalString(list.status)))
      && (list == Responded(200, []) ==> r == CodeFailed(NoMail))
      && (r.CodeFound? <==>
            list.Responded? && list.status == 200 && |list.body| > 0
            && api.fetchEmail(sid, list.body[0]).Responded?)
      && (r.CodeFound? ==> r == ExtractCodeContent(api.fetchEmail(sid, list.body[0]).body))
  {
    var sid := GetExtra(info, "sid_token");
    match api.checkEmail(sid, 0)
    case Raised(e) => CodeFailed(e)
    case Responded(status, ids) =>
      if status != 200 then CodeFailed("获取列表失败：" + DecimalString(status))
      else if ids == [] then CodeFailed(NoMail)
      else
        match api.fetchEmail(sid, ids[0])
        case Raised(e) => CodeFailed(e)
        case Responded(_, body) => ExtractCodeContent(body)
  }

  /** The servers behind the four retrieval paths. */
  datatype Providers = Providers(
    outlook: OutlookImap, mailTm: MailTmApi, secMail: SecMailApi, guerrilla: GuerrillaApi)

  /** `fetch_verification_code`: dispatch on the record's `type`; any other
      tag fails with "未知邮箱类型". The Outlook branch is the path as
      written, so it never yields a code. */
  method FetchVerificationCode(info: EmailRecord, net: Providers) returns (r: CodeResult)
    ensures info.kind == "outlook" ==> r == OutlookCodeAsWritten(info, net.outlook) && r.CodeFailed?
    ensures info.kind == "mail.tm" ==> r == FetchMailTmCode(info, net.mailTm)
    ensures info.kind == "1secmail" ==> r == Fetch1secmailCode(info, net.secMail)
    ensures info.kind == "guerrillamail" ==> r == FetchGuerrillamailCode(info, net.guerrilla)
    ensures info.kind !in {"outlook", "mail.tm", "1secmail", "guerrillamail"} ==> r == CodeFailed(UnknownType)
  {
    if info.kind == "outlook" {
      r := FetchOutlookCodeAsWritten(info, net.outlook);
    } else if info.kind == "mail.tm" {
      r := FetchMailTmCode(info, net.mailTm);
    } else if info.kind == "1secmail" {
      r := Fetch1secmailCode(info, net.secMail);
    } else if info.kind == "guerrillamail" {
      r := FetchGuerrillamailCode(info, net.guerrilla);
    } else {
      r := CodeFailed(UnknownType);
    }
  }
}
