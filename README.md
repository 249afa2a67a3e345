# Temporary-email-generator, modelled in Dafny

The program is a desktop tool that provisions throw-away mailboxes and reads
verification codes out of them. Four providers are supported: Outlook,
mail.tm, 1secmail and GuerrillaMail. It also browses and sends mail through
the IMAP/SMTP servers of QQ and 163. This project models its core:

- `email_services.py`:
  - `TempEmailService`: prefix and password generation, and the three REST
    provisioning checks.
  - `EmailHandler`: dispatch on the account's type tag, the four
    code-retrieval paths and the keyword extractor.
  - `MailboxService`: the server table, connection test, paged mail list,
    message content and sending.
- `email_gui.py`: the state the main window keeps in place, as a class
  (`EmailGui.EmailRegisterApp`). This is the saved account list, the pending
  Outlook account, and the mailbox paging cursor with the ids of the page on
  show. It also models the handlers that update that state.

Modules:

- `Wrappers`: `Option` and the shape of an HTTP answer.
  - `Raised(error)` stands for a call that raised.
  - `Responded(status, body)` stands for a reply.
- `PyText`: the Python string operations the code relies on.
  - `str.isspace`/`strip` become `IsWhitespace`/`LeadingSpace`/`Strip`.
  - `in`/`index` become `Contains`/`Find`.
  - `split('@', 1)` becomes `SplitOnce`.
  - `[::-1]` becomes `Reverse`.
  - `str(int)` becomes `DecimalString`.
- `Accounts`: the saved account dictionary (`EmailRecord`).
- `TempEmailService`, `EmailHandler`, `MailboxService`: the three classes
  of `email_services.py`. Every network exchange is a function-typed
  parameter from the request to the reply, so each contract can say which
  request was made: which message id is read, which token is sent.
- `ImapSearch`: the search-criteria list that `_fetch_outlook_code` builds,
  and how `imaplib` turns it into a command.
  - Read as IMAP search keys, one key per list item, under the SEARCH
    grammar of section 6.4.4 of RFC 3501, the list is `SUBJECT k0 BODY k0
    (OR SUBJECT k1 BODY k1) ...`. Dropping the leading `OR` leaves the
    first keyword's pair as a conjunction: a message must carry `验证` in
    both its subject and its body, while each later keyword may sit in
    either (`ImapSearch.CriteriaMeaning`,
    `ImapSearch.CriteriaMissSubjectOnlyMatch`).
  - `imaplib` never sends that list. It encodes every argument with the
    ASCII codec, and `验证` is not ASCII, so `mail.search` raises before
    anything goes out (`ImapSearch.CommandEncodingError`, and the Findings
    below).
- `EmailGui`: the window's state and handlers.

The code extractor scans `CODE_KEYWORDS` (email_services.py line 22) in
list order and takes the first keyword that occurs anywhere in the text
(lines 437-438). `'验证'` comes before `'验证码'` and is its prefix, so a
text holding `验证码` always has its excerpt anchored at the first `验证`.
That occurrence may lie elsewhere in the text, so the excerpt need not
contain `验证码` (`EmailHandler.LongerKeywordsNeverChosen`,
`EmailHandler.ExcerptAroundFirstOccurrence`).

## Model

| member | source | states |
|---|---|---|
| TempEmailService.Choices | email_services.py:31 | `random.choices` over a population yields a string of the requested length drawn from that population |
| TempEmailService.ChoicesReachEveryString | email_services.py:31 | every string over the population is produced by some sequence of picks |
| TempEmailService.GenerateEmailPrefix | email_services.py:28-32 | the prefix is 8 characters: a lower-case letter, then 7 lower-case letters or digits |
| TempEmailService.EveryValidPrefixIsGenerated | email_services.py:28-32 | every string of that shape is produced by some picks, so the generator covers the whole prefix space |
| TempEmailService.GeneratePassword | email_services.py:209-210 | the mail.tm password is 12 characters from letters, digits and `!@#$%` |
| TempEmailService.GeneratedAddressSplitsBack | email_services.py:208 | an address `prefix@domain` built from a generated prefix splits at its first `@` back into that prefix and domain |
| TempEmailService.SplitAtFirstSeparator | email_services.py:376 | `split(sep, 1)` cuts at the first separator: before it and after it |
| TempEmailService.RegisterMailTm | email_services.py:193-237 | success iff the domain list answered 200 and is non-empty, the account POST answered 200 or 201 and the token POST answered; the result carries the address built from the first domain, the password and the token; the domain-status, empty-list and rejected-account failures carry their messages |
| TempEmailService.MailTmSucceedsWithoutToken | email_services.py:222-235 | a token reply without a `token` key still counts as success, with a null token |
| TempEmailService.MailTmAddressShape | email_services.py:207-208 | a successful mail.tm address splits at `@` into the generated prefix and the first listed domain |
| TempEmailService.MailTmProvisionShape | email_services.py:207-210 | with the prefix and password drawn by the two generators, a created mail.tm account's address splits into a well-formed prefix and the first domain, and its password has the generated shape |
| TempEmailService.Register1secmail | email_services.py:240-261 | success iff the reply is 200 with a non-empty list; the address is the first listed one with an empty password; non-200 and empty-list failures carry their messages |
| TempEmailService.RegisterGuerrillamail | email_services.py:264-289 | success iff the reply is 200 and both `email_addr` and `sid_token` are truthy; the result carries both; otherwise the status or "信息不完整" message |
| PyText.LeadingSpaceIsRun | email_services.py:444 | the characters `strip` removes in front are whitespace, and the first one kept is not |
| PyText.TrailingSpaceIsRun | email_services.py:444 | the characters `strip` removes at the back are whitespace, and the last one kept is not |
| PyText.Strip | email_services.py:444 | `strip()` returns a contiguous piece of its input |
| PyText.StripCutsOnlyWhitespace | email_services.py:444 | `strip()` removes only whitespace at both ends, and the result is empty or starts and ends with a non-whitespace character |
| PyText.FindFrom | email_services.py:438-439 | the search finds the first occurrence at or after a position, or reports that there is none |
| PyText.Find | email_services.py:438-439 | `in` and `index`: the first occurrence of the keyword, or none anywhere |
| PyText.StripKeepsInnerOccurrence | email_services.py:444 | stripping never cuts into an occurrence of a word whose ends are not whitespace |
| PyText.StripOfSliceIsSpan | email_services.py:440-444 | `s[a:b].strip()` lies in the slice right after its leading whitespace, everything of the slice around it is whitespace, and its own ends are not |
| PyText.StripSliceKeepsOccurrence | email_services.py:440-444 | stripping a slice that contains such an occurrence keeps it, at a known offset |
| PyText.SplitOnce | email_services.py:376-378 | `split('@', 1)` fails iff there is no `@`; otherwise the first part has no `@` and joining the parts with `@` gives back the input |
| PyText.DigitChar | email_services.py:200 | each digit below 10 has a digit character whose value is that digit |
| PyText.DecimalString | email_services.py:200 | a status code prints as a non-empty string of decimal digits that denotes exactly that code, with no leading zero unless the code is 0 |
| PyText.LeadingDigitPositive | email_services.py:200 | a digit string without a leading zero denotes a positive number |
| PyText.DecimalStringOfDigits | email_services.py:200 | every digit string without a leading zero is the printing of the number it denotes, so printing and reading digits are inverse |
| ImapSearch.Clauses | email_services.py:323-324 | the keyword loop adds five tokens per keyword |
| ImapSearch.Criteria | email_services.py:322-325 | no keywords give an empty list; otherwise `5n-1` tokens starting with `SUBJECT`, the leading `OR` dropped |
| ImapSearch.ClausesAppend | email_services.py:323-324 | each keyword extends the list with its own five tokens |
| ImapSearch.BuildSearchCriteria | email_services.py:322-325 | the `extend` loop followed by dropping the leading `OR` yields the criteria list |
| ImapSearch.ClausesLayout | email_services.py:323-324 | before the cut the list has 5 tokens per keyword, and block i is `OR SUBJECT ki BODY ki` |
| ImapSearch.CriteriaLayout | email_services.py:322-325 | the criteria are empty for no keywords; otherwise they have 5n-1 tokens, start with `SUBJECT`, and hold each keyword's block |
| ImapSearch.ClauseTokens | email_services.py:324 | the five tokens of block i, one by one |
| ImapSearch.ParseClause | email_services.py:324 | one block parses as `OR (SUBJECT k) (BODY k)` of length 5 |
| ImapSearch.PairKeys | email_services.py:323-324 | one `OR SUBJECT k BODY k` key per keyword, in order |
| ImapSearch.ParseClauses | email_services.py:323-324 | the untrimmed list parses as one OR key per keyword |
| ImapSearch.CriteriaParse | email_services.py:322-327 | the trimmed list parses as `SUBJECT k0`, `BODY k0`, then one OR key per later keyword |
| ImapSearch.CriteriaMeaning | email_services.py:322-327 | a message satisfies the search iff its subject and its body both contain the first keyword and every later keyword is in its subject or body |
| ImapSearch.CriteriaMissSubjectOnlyMatch | email_services.py:322-329 | a message whose subject is exactly the first keyword, with an empty body, matches a keyword but is not found by the search |
| ImapSearch.FirstNonAscii | email_services.py:327 | the first position of a non-ASCII character in an argument, or none when the argument is all ASCII |
| ImapSearch.RunEnd | email_services.py:327 | the end of the run of non-ASCII characters the codec reports together |
| ImapSearch.FirstUnencodableArg | email_services.py:327 | the first argument, in command order, that holds a non-ASCII character, or none |
| ImapSearch.AsciiEncodeError | email_services.py:327 | the `UnicodeEncodeError` message begins with `'ascii' codec can't encode ` |
| ImapSearch.CommandEncodingError | email_services.py:327 | encoding the command's arguments fails iff some argument holds a non-ASCII character |
| EmailHandler.FirstKeywordFrom | email_services.py:437-438 | the first keyword in list order, from a position on, that occurs in the text; none iff no later keyword occurs |
| EmailHandler.MatchedKeyword | email_services.py:437-438 | the extractor's keyword is the first one in list order that the text contains, and none when it contains none |
| EmailHandler.ExcerptWindow | email_services.py:440-441 | the window contains the keyword, lies inside the text, and has 100 characters of context on each side unless clamped at the text's edge |
| EmailHandler.ExtractCodeContent | email_services.py:435-452 | extraction always succeeds, `full` is the untouched text, and the no-keyword sentinel is returned when no keyword occurs |
| EmailHandler.KeywordEndsAreVisible | email_services.py:22 | every keyword is non-empty and has no whitespace at either end |
| EmailHandler.WindowKeepsKeyword | email_services.py:439-444 | the stripped window is a piece of the text starting right after the window's leading whitespace, at most 100 characters before the keyword, ending at most 100 after it, and containing the keyword |
| EmailHandler.MatchedKeywordIsFirstPresent | email_services.py:437-438 | the chosen keyword is the first one in list order that occurs in the text |
| EmailHandler.ExcerptAroundFirstOccurrence | email_services.py:437-446 | the excerpt is a piece of the text within 100 characters of the first occurrence of the chosen keyword and contains it; it is the whole clamped window except the whitespace at the window's two edges |
| EmailHandler.PrefixAlsoOccurs | email_services.py:22 | a text containing a keyword contains each of its prefixes |
| EmailHandler.LongerKeywordsNeverChosen | email_services.py:22 | `验证码` and `Verification Code` are never chosen, since `验证` and `Verification` come first and are their prefixes |
| EmailHandler.ListOrderBeatsTextOrder | email_services.py:437-438 | `注册码` is chosen whenever neither `验证` form occurs, wherever `Verification` or other keywords appear in the text |
| EmailHandler.OutlookCode | email_services.py:317-346 | the Outlook path with the criteria reaching the server: a failed login or a search or body fetch that raises yields its error; "未找到相关邮件" when the search is not OK or finds nothing; otherwise the result is the extraction of the last matching id's text |
| EmailHandler.OutlookCodeAsWritten | email_services.py:317-327 | as written: after a successful login, a criteria list that does not encode as ASCII makes the search raise with the codec's message; only an all-ASCII list would go on to the search |
| EmailHandler.CriteriaFailAsciiEncoding | email_services.py:322-327 | the list built from `CODE_KEYWORDS` fails to encode at its second argument, `验证`, with "'ascii' codec can't encode characters in position 0-1: ordinal not in range(128)" |
| EmailHandler.FetchOutlookCodeAsWritten | email_services.py:315-327 | the Outlook path as written, with its keyword loop, equals OutlookCodeAsWritten and always fails |
| EmailHandler.OutlookAsWrittenNeverFindsCode | email_services.py:311-327 | as written, the Outlook path never finds a code: every login failure or success ends in a failure reply |
| EmailHandler.FetchOutlookCode | email_services.py:315-346 | the Outlook path searches with exactly the criteria the keyword loop builds |
| EmailHandler.BearerHeader | email_services.py:351 | the header is `Bearer ` followed by the stored token, or by `None` when the account has none |
| EmailHandler.MailTmContent | email_services.py:369 | a truthy `text` wins; otherwise the html parts joined by newlines; empty iff no truthy text and at most one empty html part |
| EmailHandler.FetchMailTmCode | email_services.py:349-370 | the listing uses the account's Bearer token; a non-200 and an empty list fail with their messages; otherwise the last listed message is read and the result is exactly the extraction of its text (or joined html) |
| EmailHandler.SecMailContent | email_services.py:401 | `textBody` if truthy, else `body` if truthy; empty iff neither is |
| EmailHandler.Fetch1secmailCode | email_services.py:373-402 | an address without `@` fails; the listing uses login and domain from the first `@`; the last listed message is read and the result is exactly the extraction of its content |
| EmailHandler.FetchGuerrillamailCode | email_services.py:405-432 | the listing uses the stored `sid_token` at offset 0; the first listed message is read and the result is exactly the extraction of its body |
| EmailHandler.FetchVerificationCode | email_services.py:296-312 | each type tag goes to its own retrieval path, as written, and an unknown tag fails with "未知邮箱类型"; the Outlook tag therefore never yields a code |
| MailboxService.GetServerInfo | email_services.py:459-475 | only `qq` and `163` are known, with `imap.<type>.com:993` and `smtp.<type>.com:465` |
| MailboxService.TestConnection | email_services.py:478-490 | an unknown type fails; otherwise success iff login succeeds, with the login error on failure |
| MailboxService.PageStart | email_services.py:511 | the start index lies inside the id list, and is 0 exactly when the page reaches back past the oldest id |
| MailboxService.PageEnd | email_services.py:512 | the end index lies inside the id list, and is 0 exactly when the page starts past the oldest id |
| MailboxService.PageIds | email_services.py:513 | a page holds no more ids than the mailbox, each of them one of the mailbox's ids |
| MailboxService.Slice | email_services.py:513 | Python slicing: the sub-range when in order, empty when the bounds cross |
| MailboxService.PageSpan | email_services.py:511-512 | the page bounds are ordered and inside the id list, and each is the total minus a clamped multiple of the page size |
| MailboxService.PageBounds | email_services.py:511-513 | a page holds `min(size, total - page*size)` ids, or none |
| MailboxService.PageNewestFirst | email_services.py:511-513 | a page has at most `page_size` ids, the newest first: entry k is id `end-1-k` |
| MailboxService.PageBeyondEndIsEmpty | email_services.py:511-513 | a page past the last id is empty |
| MailboxService.TwentyFiveIdsInPagesOfTen | email_services.py:511-513 | with 25 ids and pages of 10, the pages are ids 15-24, 5-14 and 0-4 reversed, then empty |
| MailboxService.PagesDisjoint | email_services.py:511-512 | an earlier page lies strictly after a later page in the id list, so no id is shown twice |
| MailboxService.ReversedSlice | email_services.py:513 | reversing a slice equals slicing the reversed list at mirrored bounds |
| MailboxService.PageIsSliceOfReversed | email_services.py:511-513 | each page is a contiguous run of the reversed id list |
| MailboxService.Covered | email_services.py:511-512 | the number of ids the first n pages show never exceeds the total |
| MailboxService.CoveredIsClampedProduct | email_services.py:511-512 | n pages show `min(n*size, total)` ids |
| MailboxService.PageSpanCovered | email_services.py:511-512 | page q starts where the first q pages stop |
| MailboxService.PagesCoverNewestFirst | email_services.py:511-513 | pages 0..n-1 in turn list exactly the newest ids, newest first |
| MailboxService.PagesCoverEveryId | email_services.py:511-513 | paging up to the last page the GUI allows (`(total-1)//size`, email_gui.py line 527) lists every id exactly once, newest first |
| MailboxService.LastPageCoversAll | email_services.py:511-512 | the pages up to the GUI's last page `(total-1)//size` together cover all ids |
| MailboxService.SummaryOf | email_services.py:529-534 | a summary carries the message id and its header's Subject, From and Date |
| MailboxService.Summaries | email_services.py:517-534 | the loop completes iff every header fetch returns, with one summary per page id in page order; otherwise its error is that of a header fetch that raised |
| MailboxService.SummariesKeepFirstError | email_services.py:517-538 | once a header fetch raises, the ids after it do not change the outcome |
| MailboxService.FetchSummaries | email_services.py:516-534 | the header loop, leaving at the first fetch that raises, yields exactly that outcome |
| MailboxService.ListedMessage | email_services.py:536 | the success message is `共 `, the decimal count, ` 封邮件` |
| MailboxService.MailListAsWritten | email_services.py:493-538 | unknown type or a not-OK SEARCH gives a 3-tuple; a login, SEARCH or header fetch that raises gives a failing 4-tuple with its error; otherwise a 4-tuple with the total and the page's summaries |
| MailboxService.MailList | email_services.py:493-538 | the same with every reply a 4-tuple (total 0 on failure); on a listed page, success iff every header fetch returns, the mails being the page's ids with their own headers |
| MailboxService.AsWrittenDiffersOnlyInShape | email_services.py:495-507 | the two differ only where the code returns a 3-tuple, and there only by the missing total |
| MailboxService.FetchMailListAsWritten | email_services.py:493-538 | the list fetch with its header loop, as written |
| MailboxService.FetchMailList | email_services.py:493-538 | the list fetch with every reply a 4-tuple |
| MailboxService.TextContentConcat | email_services.py:557-562 | the content of consecutive part runs is the concatenation of their contents |
| MailboxService.TextPartAppearsInOrder | email_services.py:557-562 | each text/plain or text/html part appears, with its newline, right after the content of the parts before it |
| MailboxService.EmptyContentIffNoDecodedText | email_services.py:557-562 | a multipart message's content is empty iff none of its text parts decoded |
| MailboxService.FirstDecodeError | email_services.py:557-562 | there is a decoding error iff some text part does not decode, and the error reported is such a part's |
| MailboxService.FirstDecodeErrorConcat | email_services.py:557-562 | the first decoding error of consecutive part runs is the first run's, if any |
| MailboxService.DecodeErrorStopsWalk | email_services.py:557-562 | the walk raises at the first text part that does not decode, and that error is the whole list's first decoding error |
| MailboxService.WalkStep | email_services.py:557-562 | a part that decodes, or is not a text part, extends the content by its text and newline, or by nothing |
| MailboxService.CollectTextParts | email_services.py:555-562 | the `content +=` loop raises the first text part's decoding error, or yields the text parts' content in walk order |
| MailboxService.MailContent | email_services.py:541-570 | an unknown type, a failed login, a FETCH that raises or a part that does not decode fails with its message; otherwise a multipart message yields its text parts, a single-part one its body |
| MailboxService.GetMailContent | email_services.py:541-570 | the content fetch with its part loop |
| MailboxService.SendEmail | email_services.py:573-592 | an unknown type fails; otherwise the message from the account to the recipient is sent on the type's SMTP server, and success iff the send did not raise |
| EmailGui.MarkedUsed | email_gui.py:296-303 | marking a valid row sets `used` on that record only; other rows are untouched |
| EmailGui.Deleted | email_gui.py:305-312 | deleting a valid row removes that record and keeps the others in order; an invalid row changes nothing |
| EmailGui.DeletedIsRemoval | email_gui.py:305-312 | deletion removes exactly one copy of the chosen record |
| EmailGui.RecordFromResult | email_gui.py:344-357 | a new record has the result's address, password and type, is unused, and carries `token` only for mail.tm and `sid_token` only for GuerrillaMail |
| EmailGui.MailTmRecordCarriesToken | email_gui.py:354-355 | a saved mail.tm account sends the provisioned token in its Bearer header |
| EmailGui.GuerrillaRecordCarriesSidToken | email_gui.py:356-357 | a saved GuerrillaMail account carries the provisioned `sid_token` |
| EmailGui.NextPage | email_gui.py:525-530 | "next page" moves by at most one page forward, and not at all with no mail counted |
| EmailGui.PrevPage | email_gui.py:519-523 | the previous page steps back by one and never below 0 |
| EmailGui.NextPageStaysWhenEmpty | email_gui.py:525-530 | with no mail, "next page" stays put |
| EmailGui.NextPageLandsOnMail | email_gui.py:525-530 | "next page" moves forward only onto a page that holds mail |
| EmailGui.UnpackListReply | email_gui.py:447-449 | a four-name unpacking succeeds iff the reply is a 4-tuple |
| EmailGui.AsWrittenSearchFailureBreaksRefresh | email_gui.py:447-449 | a failed SEARCH (the 3-tuple of `fetch_mail_list`) makes the refresh's unpacking fail |
| EmailGui.RepliesAlwaysUnpack | email_gui.py:447-449 | every reply of the corrected list fetch unpacks |
| EmailGui.SummaryIds | email_gui.py:454-456 | the ids column of a summary list, in order |
| EmailGui.RefreshMirrorsPage | email_gui.py:447-457 | after a successful refresh the shown ids are exactly the current page's ids, and at most a page's worth |
| EmailGui.EmailRegisterApp.constructor | email_gui.py:250-253 | the window starts with the loaded list, no pending account, page 0, count 0 and no ids |
| EmailGui.EmailRegisterApp.MarkEmailUsed | email_gui.py:296-303 | the list becomes the marked list; nothing else changes |
| EmailGui.EmailRegisterApp.DeleteEmail | email_gui.py:305-312 | the list loses the selected row; nothing else changes |
| EmailGui.EmailRegisterApp.OnRegisterFinish | email_gui.py:326-368 | a failure changes nothing; an Outlook success only fills the pending slot; any other success appends its record |
| EmailGui.EmailRegisterApp.VerifyOutlookRegistration | email_gui.py:370-378 | a pending account moves to the end of the list and the slot empties |
| EmailGui.EmailRegisterApp.FetchMailbox | email_gui.py:436-461 | with credentials and a successful list, the count and shown ids mirror the reply for the current page; otherwise they stay |
| EmailGui.EmailRegisterApp.MirrorMailIds | email_gui.py:454-456 | the id-collecting loop leaves exactly the summaries' ids |
| EmailGui.EmailRegisterApp.GotoMailFirstPage | email_gui.py:513-517 | the cursor goes to 0, refreshing only if it moved |
| EmailGui.EmailRegisterApp.GotoMailPrevPage | email_gui.py:519-523 | the cursor steps back when above 0 and then refreshes |
| EmailGui.EmailRegisterApp.GotoMailNextPage | email_gui.py:525-530 | the cursor advances only below `(count-1)//size`, and then refreshes |
| EmailGui.EmailRegisterApp.OnMailItemClicked | email_gui.py:463-482 | an out-of-range row shows nothing; otherwise the content of that row's id is fetched |

## Left out

- The Outlook signup through a Selenium-driven Edge browser
  (`register_outlook`, `email_services.py:35-190`). It is browser automation,
  not program logic. Outlook accounts enter the model as a provisioning
  result.
- HTTP, IMAP and SMTP traffic, timeouts and JSON decoding. Each exchange is a
  parameter from the request to the reply. A call that raises is a `Raised`
  HTTP reply, a `Threw` IMAP answer (LOGIN, SEARCH, FETCH and the decoding
  of a header or part may each raise), or an error string. Only the text of
  those exceptions is left to the parameters; the one text the code
  determines itself, the ASCII encoding error of the Outlook search, is
  modelled.
- EmailHandler.OutlookCode: it is the Outlook path with the criteria reaching
  the server. How a fix would send non-ASCII keywords (a `CHARSET UTF-8`
  search with literals) is not modelled. `imaplib` also sends each argument
  unquoted, so an ASCII keyword with a space, such as `Verification Code`,
  would go out as two atoms. The model reads each list item as one search
  key.
- MIME parsing, `decode_header`, charsets and `errors='ignore'` decoding. A
  multipart message is its walked part list, with each part's decoded text.
  For Outlook, the choice of the first text/plain part is folded into the
  `bodyText` parameter.
- IMAP SEARCH matching is modelled as exact substring containment. Servers
  match case-insensitively, and that is not modelled.
- A SEARCH reply whose `data[0]` holds only whitespace passes the
  `not data[0]` test, and then `split()[-1]` raises. The model has only the
  split id list, so it treats that case like an empty reply.
- `random.choice`/`random.choices` become sequences of picked positions.
  Their distribution is not modelled.
- The Qt widgets, worker threads, message boxes, log pane and clipboard.
  This includes `start_register`, `query_selected_email`, `on_code_received`,
  `apply_account_to_fields`, `test_mail_account` and the field checks of
  `send_mail`. Only the state they read or write is modelled.
- Loading and saving `email_list.json` and the mail accounts file
  (`email_gui.py:257-281`). `save_email_list` after an update is file I/O.
- EmailGui.EmailRegisterApp.FetchMailbox: it calls the corrected `MailList`.
  The as-written refresh raises `ValueError` when the list fetch returns a
  3-tuple. That behaviour is stated by `AsWrittenSearchFailureBreaksRefresh`
  instead (see Findings).
- ImapSearch.KeywordClause and MailboxService.TextContent carry no contract
  of their own. Their properties are stated by `ImapSearch.ClauseTokens`,
  `ImapSearch.ParseClause`, `MailboxService.TextPartAppearsInOrder` and
  `MailboxService.EmptyContentIffNoDecodedText`.

## Findings

| source | as written | input that shows it | evidently intended | confidence | as-written member | corrected member |
|---|---|---|---|---|---|---|
| email_services.py:495-497, email_services.py:505-507, email_gui.py:447-449 | `fetch_mail_list` returns the 3-tuple `(False, msg, [])` for an unknown mail type and for a failed SEARCH. `fetch_mailbox` unpacks four values, so the refresh raises `ValueError` instead of showing the message | mail type `qq`, login accepted, `SEARCH ALL` answering a status other than `OK` | every reply is `(ok, message, mails, total)`, as the exception path already returns | not executed | MailboxService.MailListAsWritten, EmailGui.AsWrittenSearchFailureBreaksRefresh | MailboxService.MailList, EmailGui.RepliesAlwaysUnpack |
| email_services.py:317-327 | `mail.search(None, *search_criteria)` passes `验证` to `imaplib`, which encodes every argument with the ASCII codec. The search raises `UnicodeEncodeError`, caught at lines 311-312, so the Outlook path never returns a code | any Outlook account whose login succeeds | the search criteria reach the server and the last matching message's text is extracted | not executed | EmailHandler.OutlookCodeAsWritten, EmailHandler.OutlookAsWrittenNeverFindsCode, EmailHandler.FetchOutlookCodeAsWritten | EmailHandler.OutlookCode, EmailHandler.FetchOutlookCode |
