/** `MailboxService`: IMAP/SMTP access to QQ and 163 mailboxes with an
    authorization code. The servers are parameters: `connect` gives what an
    IMAP session on the looked-up server yields for the account. */
module MailboxService {
  import opened Wrappers
  import opened PyText
  import opened Accounts

  datatype ServerInfo = ServerInfo(imapHost: string, imapPort: nat, smtpHost: string, smtpPort: nat)

  /** `get_server_info`: the static table; an unknown tag yields the empty
      dictionary, here None. */
  function GetServerInfo(mailType: string): (r: Option<ServerInfo>)
    ensures r.Some? <==> mailType == "qq" || mailType == "163"
    ensures r.Some? ==> r.value.imapPort == 993 && r.value.smtpPort == 465
    ensures r.Some? ==> r.value.imapHost == "imap." + mailType + ".com"
    ensures r.Some? ==> r.value.smtpHost == "smtp." + mailType + ".com"
  {
    var servers := map[
      "qq" := ServerInfo("imap.qq.com", 993, "smtp.qq.com", 465),
      "163" := ServerInfo("imap.163.com", 993, "smtp.163.com", 465)];
    if mailType in servers then Some(servers[mailType]) else None
  }

  /** Subject (decoded), From and Date of one message's header. */
  datatype Header = Header(subject: string, from: string, date: string)

  datatype MailSummary = MailSummary(id: string, subject: string, from: string, date: string)

  /** A fetched message: the walk of a multipart message as a flat list of
      parts, or the single body. */
  datatype MimeMessage = Multipart(parts: seq<MimePart>) | SinglePart(text: Attempt<string>)

  /** One walked part: its content type and its payload decoded with its
      charset, which raises on an unknown charset. The code decodes text
      parts only, so `text` matters only for those. */
  datatype MimePart = MimePart(contentType: string, text: Attempt<string>)

  /** What an IMAP session yields: LOGIN or SELECT raised, or the answers of
      SEARCH ALL, of FETCH (RFC822.HEADER) with the decoding of its Subject,
      and of FETCH (RFC822), per message id; each of these may raise (a lost
      connection, an id the server does not know, a header without Subject,
      an unknown charset). */
  datatype ImapSession =
    | LoginFailed(error: string)
    | Session(searchAll: Attempt<SearchReply>, header: string -> Attempt<Header>, message: string -> Attempt<MimeMessage>)

  // ---------------------------------------------------------------------
  // test_connection

  /** `test_connection`: unknown tag, or the login outcome. */
  function TestConnection(
    mailType: string, email: string, password: string,
    connect: (ServerInfo, string, string) -> ImapSession): (r: (bool, string))
    ensures GetServerInfo(mailType).None? ==> r == (false, UnknownType)
    ensures GetServerInfo(mailType).Some? ==>
      var s := connect(GetServerInfo(mailType).value, email, password);
      (r.0 <==> s.Session?) && (r.0 ==> r.1 == "连接成功") && (!r.0 ==> r.1 == s.error)
  {
    match GetServerInfo(mailType)
    case None => (false, UnknownType)
    case Some(info) =>
      match connect(info, email, password)
      case LoginFailed(e) => (false, e)
      case Session(_, _, _) => (true, "连接成功")
  }

  // ---------------------------------------------------------------------
  // Pagination of fetch_mail_list

  function Max0(x: int): nat
  {
    if x > 0 then x else 0
  }

  function Min(a: int, b: int): int
  {
    if a < b then a else b
  }

  /** `start = max(0, total - (page + 1) * page_size)`. */
  function PageStart(total: nat, page: int, size: int): (r: nat)
    ensures page >= -1 && size >= 0 ==> r <= total
    ensures r == 0 <==> total <= (page + 1) * size
  {
    Max0(total - (page + 1) * size)
  }

  /** `end = max(0, total - page * page_size)`. */
  function PageEnd(total: nat, page: int, size: int): (r: nat)
    ensures page >= 0 && size >= 0 ==> r <= total
    ensures r == 0 <==> total <= page * size
  {
    Max0(total - page * size)
  }

  /** Python's `s[a:b]` for non-negative bounds: both clamped to the length,
      empty when they cross. */
  function Slice<T>(s: seq<T>, a: nat, b: nat): (r: seq<T>)
    ensures a <= b <= |s| ==> r == s[a..b]
    ensures b <= a ==> r == []
  {
    var lo := if a < |s| then a else |s|;
    var hi := if b < |s| then b else |s|;
    if lo <= hi then s[lo..hi] else []
  }

  /** `all_ids[start:end][::-1]`: the ids shown on one page. */
  function PageIds<T>(allIds: seq<T>, page: int, size: int): (r: seq<T>)
    ensures |r| <= |allIds|
    ensures forall k :: 0 <= k < |r| ==> r[k] in allIds
  {
    Reverse(Slice(allIds, PageStart(|allIds|, page, size), PageEnd(|allIds|, page, size)))
  }

  lemma MulStep(page: nat, size: nat)
    ensures (page + 1) * size == page * size + size
    ensures page * size >= 0
  {
  }

  /** Counted from the newest id, page `q` spans `q * size` up to
      `q * size + size`, clamped to the number of ids. */
  lemma PageSpan(total: nat, q: nat, size: nat)
    requires size > 0
    ensures PageStart(total, q, size) <= PageEnd(total, q, size) <= total
    ensures total - PageEnd(total, q, size) == Min(q * size, total)
    ensures total - PageStart(total, q, size) == Min(q * size + size, total)
  {
    MulStep(q, size);
  }

  /** For a page index >= 0 and a positive page size the slice bounds lie in
      the id list, in order, and a page holds `size` ids unless the list runs
      out first. */
  lemma PageBounds(total: nat, page: nat, size: nat)
    requires size > 0
    ensures PageStart(total, page, size) <= PageEnd(total, page, size) <= total
    ensures PageEnd(total, page, size) - PageStart(total, page, size) == Max0(Min(size, total - page * size))
  {
    MulStep(page, size);
  }

  /** A page holds at most `size` ids, the newest first: its k-th id is the
      k-th counting back from the page's end. */
  lemma PageNewestFirst<T>(allIds: seq<T>, page: nat, size: nat, k: nat)
    requires size > 0
    ensures |PageIds(allIds, page, size)| == PageEnd(|allIds|, page, size) - PageStart(|allIds|, page, size) <= size
    ensures k < |PageIds(allIds, page, size)| ==>
      PageIds(allIds, page, size)[k] == allIds[PageEnd(|allIds|, page, size) - 1 - k]
  {
    PageBounds(|allIds|, page, size);
    var start := PageStart(|allIds|, page, size);
    var end := PageEnd(|allIds|, page, size);
    if k < end - start {
      assert allIds[start..end][end - start - 1 - k] == allIds[end - 1 - k];
    }
  }

  /** Pages that start at or beyond the number of ids are empty, not an
      error. */
  lemma PageBeyondEndIsEmpty<T>(allIds: seq<T>, page: nat, size: nat)
    requires size > 0 && page * size >= |allIds|
    ensures PageIds(allIds, page, size) == []
  {
    PageBounds(|allIds|, page, size);
  }

  /** 25 ids, 10 per page: page 0 is ids 15..24 newest first, page 2 is
      ids 0..4, page 3 is empty. */
  lemma TwentyFiveIdsInPagesOfTen<T>(allIds: seq<T>)
    requires |allIds| == 25
    ensures PageIds(allIds, 0, 10) == Reverse(allIds[15..25])
    ensures PageIds(allIds, 1, 10) == Reverse(allIds[5..15])
    ensures PageIds(allIds, 2, 10) == Reverse(allIds[0..5])
    ensures PageIds(allIds, 3, 10) == []
  {
  }

  /** A later page ends where an earlier one starts or before: pages never
      share an id. */
  lemma PagesDisjoint(total: nat, p: nat, q: nat, size: nat)
    requires size > 0 && p < q
    ensures PageEnd(total, q, size) <= PageStart(total, p, size)
  {
    MulStep(p, size);
    assert q * size >= (p + 1) * size by {
      var d := q - (p + 1);
      assert q * size == (p + 1) * size + d * size;
      MulStep(d, size);
    }
  }

  lemma MulMono(a: nat, b: nat, size: nat)
    requires a <= b
    ensures a * size <= b * size
  {
    var d := b - a;
    assert b * size == a * size + d * size;
    MulStep(d, size);
  }

  /** Floor division: `(x // size) * size <= x`. */
  lemma DivFloor(x: int, size: nat)
    requires size > 0
    ensures (x / size) * size <= x
  {
    var d := x / size;
    var r := x % size;
    assert x == d * size + r;
    assert r >= 0;
  }

  /** Reversing a slice takes the mirrored slice of the reversed list. */
  lemma ReversedSlice<T>(s: seq<T>, lo: nat, hi: nat)
    requires lo <= hi <= |s|
    ensures Reverse(s[lo..hi]) == Reverse(s)[|s| - hi..|s| - lo]
  {
    var r := Reverse(s);
    var a := Reverse(s[lo..hi]);
    var b := r[|s| - hi..|s| - lo];
    assert |a| == hi - lo == |b|;
    forall k | 0 <= k < hi - lo ensures a[k] == b[k] {
      assert a[k] == s[lo..hi][hi - lo - 1 - k] == s[hi - 1 - k];
      assert b[k] == r[|s| - hi + k] == s[hi - 1 - k];
    }
  }

  /** Page `q` is the slice of the reversed id list between the distances
      of its bounds from the end. */
  lemma PageIsSliceOfReversed<T>(allIds: seq<T>, q: nat, size: nat)
    requires size > 0
    ensures PageStart(|allIds|, q, size) <= PageEnd(|allIds|, q, size) <= |allIds|
    ensures PageIds(allIds, q, size)
      == Reverse(allIds)[|allIds| - PageEnd(|allIds|, q, size)..|allIds| - PageStart(|allIds|, q, size)]
  {
    PageSpan(|allIds|, q, size);
    var start := PageStart(|allIds|, q, size);
    var end := PageEnd(|allIds|, q, size);
    assert PageIds(allIds, q, size) == Reverse(allIds[start..end]);
    ReversedSlice(allIds, start, end);
  }

  lemma PrefixThenSlice<T>(s: seq<T>, a: nat, b: nat)
    requires a <= b <= |s|
    ensures s[..a] + s[a..b] == s[..b]
  {
  }

  /** Pages 0 .. n-1 shown one after another. */
  function AllPages<T>(allIds: seq<T>, n: nat, size: nat): seq<T>
    requires size > 0
  {
    if n == 0 then [] else AllPages(allIds, n - 1, size) + PageIds(allIds, n - 1, size)
  }

  /** Number of ids the first `n` pages hold together: `size` more per
      page until the list runs out. */
  function Covered(total: nat, n: nat, size: nat): (c: nat)
    ensures c <= total
  {
    if n == 0 then 0 else Min(Covered(total, n - 1, size) + size, total)
  }

  /** The first `n` pages hold `min(n * size, total)` ids. */
  lemma {:induction false} CoveredIsClampedProduct(total: nat, n: nat, size: nat)
    ensures Covered(total, n, size) == Min(n * size, total)
  {
    if n > 0 {
      CoveredIsClampedProduct(total, n - 1, size);
      MulStep(n - 1, size);
    }
  }

  /** Page `q` spans, counted from the newest id, from what the pages
      before it cover to what the pages up to it cover. */
  lemma PageSpanCovered(total: nat, q: nat, size: nat)
    requires size > 0
    ensures PageStart(total, q, size) <= PageEnd(total, q, size) <= total
    ensures total - PageEnd(total, q, size) == Covered(total, q, size)
    ensures total - PageStart(total, q, size) == Covered(total, q + 1, size)
  {
    PageSpan(total, q, size);
    CoveredIsClampedProduct(total, q, size);
    CoveredIsClampedProduct(total, q + 1, size);
  }

  /** Paging from the first page on lists the ids newest first, without a
      gap or a repeat: the first n pages are the first
      `Covered(total, n, size)` ids of the reversed list. */
  lemma {:induction false} PagesCoverNewestFirst<T>(allIds: seq<T>, n: nat, size: nat)
    requires size > 0
    ensures AllPages(allIds, n, size) == Reverse(allIds)[..Covered(|allIds|, n, size)]
  {
    if n > 0 {
      var m := n - 1;
      PagesCoverNewestFirst(allIds, m, size);
      var total := |allIds|;
      var rev := Reverse(allIds);
      var a := Covered(total, m, size);
      var b := Covered(total, n, size);
      assert a <= b && PageIds(allIds, m, size) == rev[a..b] by {
        PageSpanCovered(total, m, size);
        PageIsSliceOfReversed(allIds, m, size);
      }
      assert AllPages(allIds, n, size) == rev[..a] + rev[a..b];
      PrefixThenSlice(rev, a, b);
    }
  }

  lemma DivBound(x: nat, size: nat)
    requires size > 0
    ensures x < (x / size + 1) * size
  {
    var d := x / size;
    var r := x % size;
    assert x == d * size + r;
    assert r < size;
    MulStep(d, size);
  }

  /** The pages up to the last one the next-page button reaches,
      `(total - 1) // size`, hold every id exactly once, newest first. */
  lemma PagesCoverEveryId<T>(allIds: seq<T>, size: nat)
    requires size > 0
    ensures (|allIds| - 1) / size + 1 >= 0
    ensures AllPages(allIds, (|allIds| - 1) / size + 1, size) == Reverse(allIds)
  {
    LastPageCoversAll(|allIds|, size);
    var n: nat := (|allIds| - 1) / size + 1;
    PagesCoverNewestFirst(allIds, n, size);
    var rev := Reverse(allIds);
    assert rev[..|allIds|] == rev;
  }

  /** Pages 0 up to `(total - 1) // size` cover all `total` ids. */
  lemma LastPageCoversAll(total: nat, size: nat)
    requires size > 0
    ensures (total - 1) / size + 1 >= 0
    ensures Covered(total, (total - 1) / size + 1, size) == total
  {
    if total > 0 {
      var n := (total - 1) / size + 1;
      CoveredIsClampedProduct(total, n, size);
      DivBound(total - 1, size);
    }
  }

  // ---------------------------------------------------------------------
  // fetch_mail_list

  /** One listed message: its id with the Subject, From and Date of its
      header. */
  function SummaryOf(id: string, h: Header): (m: MailSummary)
    ensures m.id == id && Header(m.subject, m.from, m.date) == h
  {
    MailSummary(id, h.subject, h.from, h.date)
  }

  /** The header loop over the page ids: the summaries in page order when
      every header fetch returns, otherwise the error of a fetch that
      raised, every fetch before it having returned. */
  function Summaries(header: string -> Attempt<Header>, pageIds: seq<string>): (r: Attempt<seq<MailSummary>>)
    ensures r.Returned? <==> forall k :: 0 <= k < |pageIds| ==> header(pageIds[k]).Returned?
    ensures r.Returned? ==> |r.value| == |pageIds|
    ensures r.Returned? ==> forall k :: 0 <= k < |pageIds| ==> r.value[k] == SummaryOf(pageIds[k], header(pageIds[k]).value)
    ensures r.Threw? ==> exists k :: 0 <= k < |pageIds| && header(pageIds[k]) == Threw(r.error)
  {
    if pageIds == [] then Returned([])
    else
      var last := pageIds[|pageIds| - 1];
      match Summaries(header, pageIds[..|pageIds| - 1])
      case Threw(e) => Threw(e)
      case Returned(mails) =>
        match header(last)
        case Threw(e) => Threw(e)
        case Returned(h) => Returned(mails + [SummaryOf(last, h)])
  }

  /** Once a header fetch has raised, the loop's outcome is that error
      whatever ids follow. */
  lemma {:induction false} SummariesKeepFirstError(header: string -> Attempt<Header>, pageIds: seq<string>, n: nat)
    requires n <= |pageIds| && Summaries(header, pageIds[..n]).Threw?
    ensures Summaries(header, pageIds) == Summaries(header, pageIds[..n])
    decreases |pageIds| - n
  {
    if n < |pageIds| {
      assert pageIds[..n + 1][..n] == pageIds[..n];
      assert Summaries(header, pageIds[..n + 1]) == Summaries(header, pageIds[..n]);
      SummariesKeepFirstError(header, pageIds, n + 1);
    } else {
      assert pageIds[..n] == pageIds;
    }
  }

  /** The header fetch loop: one `mail_list.append` per page id, leaving the
      loop by the first fetch that raises. */
  method FetchSummaries(header: string -> Attempt<Header>, pageIds: seq<string>) returns (r: Attempt<seq<MailSummary>>)
    ensures r == Summaries(header, pageIds)
  {
    var mails: seq<MailSummary> := [];
    for i := 0 to |pageIds|
      invariant Summaries(header, pageIds[..i]) == Returned(mails)
    {
      assert pageIds[..i + 1][..i] == pageIds[..i];
      match header(pageIds[i]) {
        case Threw(e) =>
          SummariesKeepFirstError(header, pageIds, i + 1);
          return Threw(e);
        case Returned(h) =>
          mails := mails + [SummaryOf(pageIds[i], h)];
      }
    }
    assert pageIds[..|pageIds|] == pageIds;
    r := Returned(mails);
  }

  /** The reply of `fetch_mail_list`: as written, three values on some
      paths, four otherwise. */
  datatype ListReply =
    | Triple(ok: bool, message: string, mails: seq<MailSummary>)
    | Quad(ok: bool, message: string, mails: seq<MailSummary>, total: nat)

  const SearchFailedMessage: string := "获取邮件列表失败"

  /** `f"共 {total} 封邮件"`: the count in decimal between the two fixed
      pieces. */
  function ListedMessage(total: nat): (msg: string)
    ensures |msg| == |DecimalString(total)| + 6
    ensures msg[..2] == "共 " && msg[2..|msg| - 4] == DecimalString(total) && msg[|msg| - 4..] == " 封邮件"
  {
    "共 " + DecimalString(total) + " 封邮件"
  }

  /** `fetch_mail_list` as written: the unknown-type and failed-SEARCH paths
      return a three-element tuple, the others four; anything that raises
      inside the `with` block gives `(False, str(e), [], 0)`. */
  function MailListAsWritten(
    mailType: string, email: string, password: string, page: int, size: int,
    connect: (ServerInfo, string, string) -> ImapSession): (reply: ListReply)
    ensures GetServerInfo(mailType).None? ==> reply == Triple(false, UnknownType, [])
    ensures GetServerInfo(mailType).Some? ==>
      var s := connect(GetServerInfo(mailType).value, email, password);
      && (s.LoginFailed? ==> reply == Quad(false, s.error, [], 0))
      && (s.Session? && s.searchAll.Threw? ==> reply == Quad(false, s.searchAll.error, [], 0))
      && (s.Session? && s.searchAll.Returned? && !s.searchAll.value.ok ==>
            reply == Triple(false, SearchFailedMessage, []))
      && (s.Session? && s.searchAll.Returned? && s.searchAll.value.ok ==>
            var allIds := s.searchAll.value.ids;
            var mails := Summaries(s.header, PageIds(allIds, page, size));
            && (mails.Threw? ==> reply == Quad(false, mails.error, [], 0))
            && (mails.Returned? ==> reply == Quad(true, ListedMessage(|allIds|), mails.value, |allIds|)))
  {
    match GetServerInfo(mailType)
    case None => Triple(false, UnknownType, [])
    case Some(info) =>
      match connect(info, email, password)
      case LoginFailed(e) => Quad(false, e, [], 0)
      case Session(search, header, _) =>
        match search
        case Threw(e) => Quad(false, e, [], 0)
        case Returned(reply) =>
          if !reply.ok then Triple(false, SearchFailedMessage, [])
          else
            match Summaries(header, PageIds(reply.ids, page, size))
            case Threw(e) => Quad(false, e, [], 0)
            case Returned(mails) => Quad(true, ListedMessage(|reply.ids|), mails, |reply.ids|)
  }

  /** `fetch_mail_list` with every path returning the four values its caller
      unpacks, the count 0 on failure. On success the count is the number of
      ids SEARCH ALL returned, and the mails are the page's ids, newest first,
      each with its own header. */
  function MailList(
    mailType: string, email: string, password: string, page: int, size: int,
    connect: (ServerInfo, string, string) -> ImapSession): (reply: ListReply)
    ensures reply.Quad?
    ensures GetServerInfo(mailType).None? ==> reply == Quad(false, UnknownType, [], 0)
    ensures GetServerInfo(mailType).Some? ==>
      var s := connect(GetServerInfo(mailType).value, email, password);
      && (s.LoginFailed? ==> reply == Quad(false, s.error, [], 0))
      && (s.Session? && s.searchAll.Threw? ==> reply == Quad(false, s.searchAll.error, [], 0))
      && (s.Session? && s.searchAll.Returned? && !s.searchAll.value.ok ==>
            reply == Quad(false, SearchFailedMessage, [], 0))
      && (s.Session? && s.searchAll.Returned? && s.searchAll.value.ok ==>
            var allIds := s.searchAll.value.ids;
            var pageIds := PageIds(allIds, page, size);
            && (reply.ok <==> forall k :: 0 <= k < |pageIds| ==> s.header(pageIds[k]).Returned?)
            && (!reply.ok ==> exists k :: 0 <= k < |pageIds| && s.header(pageIds[k]) == Threw(reply.message))
            && (reply.ok ==>
                  && reply.message == ListedMessage(|allIds|)
                  && reply.total == |allIds|
                  && |reply.mails| == |pageIds|
                  && forall k :: 0 <= k < |pageIds| ==>
                       reply.mails[k].id == pageIds[k]
                       && Returned(Header(reply.mails[k].subject, reply.mails[k].from, reply.mails[k].date))
                          == s.header(pageIds[k])))
  {
    match GetServerInfo(mailType)
    case None => Quad(false, UnknownType, [], 0)
    case Some(info) =>
      match connect(info, email, password)
      case LoginFailed(e) => Quad(false, e, [], 0)
      case Session(search, header, _) =>
        match search
        case Threw(e) => Quad(false, e, [], 0)
        case Returned(reply) =>
          if !reply.ok then Quad(false, SearchFailedMessage, [], 0)
          else
            match Summaries(header, PageIds(reply.ids, page, size))
            case Threw(e) => Quad(false, e, [], 0)
            case Returned(mails) => Quad(true, ListedMessage(|reply.ids|), mails, |reply.ids|)
  }

  /** The two differ exactly on the paths that return three values. */
  lemma AsWrittenDiffersOnlyInShape(
    mailType: string, email: string, password: string, page: int, size: int,
    connect: (ServerInfo, string, string) -> ImapSession)
    ensures var w := MailListAsWritten(mailType, email, password, page, size, connect);
      var c := MailList(mailType, email, password, page, size, connect);
      && (w.Quad? ==> w == c)
      && (w.Triple? ==> !w.ok && c == Quad(false, w.message, w.mails, 0))
  {
  }

  /** `fetch_mail_list` as written. */
  method FetchMailListAsWritten(
    mailType: string, email: string, password: string, page: int, size: int,
    connect: (ServerInfo, string, string) -> ImapSession) returns (reply: ListReply)
    ensures reply == MailListAsWritten(mailType, email, password, page, size, connect)
  {
    var info := GetServerInfo(mailType);
    if info.None? {
      return Triple(false, UnknownType, []);
    }
    match connect(info.value, email, password)
    case LoginFailed(e) =>
      reply := Quad(false, e, [], 0);
    case Session(search, header, _) =>
      if search.Threw? {
        return Quad(false, search.error, [], 0);
      }
      if !search.value.ok {
        return Triple(false, SearchFailedMessage, []);
      }
      var allIds := search.value.ids;
      var mails := FetchSummaries(header, PageIds(allIds, page, size));
      reply := if mails.Threw? then Quad(false, mails.error, [], 0)
               else Quad(true, ListedMessage(|allIds|), mails.value, |allIds|);
  }

  /** `fetch_mail_list` returning four values on every path. */
  method FetchMailList(
    mailType: string, email: string, password: string, page: int, size: int,
    connect: (ServerInfo, string, string) -> ImapSession) returns (reply: ListReply)
    ensures reply == MailList(mailType, email, password, page, size, connect)
  {
    var info := GetServerInfo(mailType);
    if info.None? {
      return Quad(false, UnknownType, [], 0);
    }
    match connect(info.value, email, password)
    case LoginFailed(e) =>
      reply := Quad(false, e, [], 0);
    case Session(search, header, _) =>
      if search.Threw? {
        return Quad(false, search.error, [], 0);
      }
      if !search.value.ok {
        return Quad(false, SearchFailedMessage, [], 0);
      }
      var allIds := search.value.ids;
      var mails := FetchSummaries(header, PageIds(allIds, page, size));
      reply := if mails.Threw? then Quad(false, mails.error, [], 0)
               else Quad(true, ListedMessage(|allIds|), mails.value, |allIds|);
  }

  // ---------------------------------------------------------------------
  // get_mail_content

  predicate IsTextPart(p: MimePart)
  {
    p.contentType == "text/plain" || p.contentType == "text/html"
  }

  /** What one walked part adds to the content once every text part has
      decoded. */
  function PartContribution(p: MimePart): string
  {
    if IsTextPart(p) && p.text.Returned? then p.text.value + "\n" else ""
  }

  /** The content of a multipart message whose text parts all decode: every
      text/plain and text/html part, each followed by a newline, in walk
      order. */
  function TextContent(parts: seq<MimePart>): (content: string)
  {
    if parts == [] then "" else PartContribution(parts[0]) + TextContent(parts[1..])
  }

  /** The error of the first text part, in walk order, whose payload does
      not decode; None when all decode. */
  function FirstDecodeError(parts: seq<MimePart>): (r: Option<string>)
    ensures r.None? <==> forall i :: 0 <= i < |parts| && IsTextPart(parts[i]) ==> parts[i].text.Returned?
    ensures r.Some? ==> exists i :: 0 <= i < |parts| && IsTextPart(parts[i]) && parts[i].text == Threw(r.value)
  {
    if parts == [] then None
    else if IsTextPart(parts[0]) && parts[0].text.Threw? then Some(parts[0].text.error)
    else FirstDecodeError(parts[1..])
  }

  lemma {:induction false} FirstDecodeErrorConcat(a: seq<MimePart>, b: seq<MimePart>)
    ensures FirstDecodeError(a + b) == if FirstDecodeError(a).Some? then FirstDecodeError(a) else FirstDecodeError(b)
  {
    if a != [] {
      assert (a + b)[0] == a[0];
      assert (a + b)[1..] == a[1..] + b;
      FirstDecodeErrorConcat(a[1..], b);
    } else {
      assert a + b == b;
    }
  }

  lemma {:induction false} TextContentConcat(a: seq<MimePart>, b: seq<MimePart>)
    ensures TextContent(a + b) == TextContent(a) + TextContent(b)
  {
    if a != [] {
      assert (a + b)[0] == a[0];
      assert (a + b)[1..] == a[1..] + b;
      TextContentConcat(a[1..], b);
      assert TextContent(a + b) == PartContribution(a[0]) + TextContent(a[1..] + b);
      assert TextContent(a) == PartContribution(a[0]) + TextContent(a[1..]);
      assert PartContribution(a[0]) + (TextContent(a[1..]) + TextContent(b))
        == (PartContribution(a[0]) + TextContent(a[1..])) + TextContent(b);
    } else {
      assert a + b == b;
    }
  }

  /** Each decoded text part appears, with its newline, right after the
      content of the parts before it. */
  lemma TextPartAppearsInOrder(parts: seq<MimePart>, i: nat)
    requires i < |parts| && IsTextPart(parts[i]) && parts[i].text.Returned?
    ensures OccursAt(TextContent(parts), parts[i].text.value + "\n", |TextContent(parts[..i])|)
  {
    var t := parts[i].text.value + "\n";
    var pre := TextContent(parts[..i]);
    var rest := TextContent(parts[i + 1..]);
    var tail := [parts[i]] + parts[i + 1..];
    assert parts == parts[..i] + tail;
    assert tail[0] == parts[i] && tail[1..] == parts[i + 1..];
    assert TextContent(tail) == t + rest;
    TextContentConcat(parts[..i], tail);
    var whole := pre + (t + rest);
    assert TextContent(parts) == whole;
    assert whole[|pre|..|pre| + |t|] == t;
  }

  /** The content is empty exactly when no text part decoded: every
      decoded text part adds at least its newline. */
  lemma {:induction false} EmptyContentIffNoDecodedText(parts: seq<MimePart>)
    ensures TextContent(parts) == "" <==>
      forall i :: 0 <= i < |parts| && IsTextPart(parts[i]) ==> parts[i].text.Threw?
  {
    if parts != [] {
      EmptyContentIffNoDecodedText(parts[1..]);
      assert forall i :: 1 <= i < |parts| ==> parts[i] == parts[1..][i - 1];
    }
  }

  /** The walk stops at a text part that does not decode, and its error is
      the first decoding error of the whole part list. */
  lemma DecodeErrorStopsWalk(parts: seq<MimePart>, i: nat)
    requires i < |parts| && FirstDecodeError(parts[..i]).None?
    requires IsTextPart(parts[i]) && parts[i].text.Threw?
    ensures FirstDecodeError(parts) == Some(parts[i].text.error)
  {
    assert parts == parts[..i] + parts[i..];
    FirstDecodeErrorConcat(parts[..i], parts[i..]);
  }

  /** One more part that decodes, or is not a text part, extends the
      content by its contribution. */
  lemma WalkStep(parts: seq<MimePart>, i: nat)
    requires i < |parts| && FirstDecodeError(parts[..i]).None?
    requires !(IsTextPart(parts[i]) && parts[i].text.Threw?)
    ensures FirstDecodeError(parts[..i + 1]).None?
    ensures TextContent(parts[..i + 1]) == TextContent(parts[..i]) + PartContribution(parts[i])
  {
    assert parts[..i + 1] == parts[..i] + [parts[i]];
    assert [parts[i]][1..] == [];
    FirstDecodeErrorConcat(parts[..i], [parts[i]]);
    TextContentConcat(parts[..i], [parts[i]]);
  }

  /** The `content +=` loop over the walked parts, left by the first text
      part that does not decode. */
  method CollectTextParts(parts: seq<MimePart>) returns (content: Attempt<string>)
    ensures FirstDecodeError(parts).Some? ==> content == Threw(FirstDecodeError(parts).value)
    ensures FirstDecodeError(parts).None? ==> content == Returned(TextContent(parts))
  {
    var text := "";
    for i := 0 to |parts|
      invariant FirstDecodeError(parts[..i]).None?
      invariant text == TextContent(parts[..i])
    {
      if IsTextPart(parts[i]) {
        match parts[i].text {
          case Threw(e) =>
            DecodeErrorStopsWalk(parts, i);
            return Threw(e);
          case Returned(t) =>
            text := text + t + "\n";
        }
      }
      WalkStep(parts, i);
    }
    assert parts[..|parts|] == parts;
    content := Returned(text);
  }

  datatype ContentReply = ContentReply(ok: bool, message: string, content: string)

  /** `get_mail_content`: a multipart message yields its text parts, a
      single-part one its decoded body; a FETCH or a decoding that raises
      gives `(False, str(e), "")`. */
  function MailContent(
    mailType: string, email: string, password: string, msgId: string,
    connect: (ServerInfo, string, string) -> ImapSession): (reply: ContentReply)
    ensures GetServerInfo(mailType).None? ==> reply == ContentReply(false, UnknownType, "")
    ensures GetServerInfo(mailType).Some? ==>
      var s := connect(GetServerInfo(mailType).value, email, password);
      && (s.LoginFailed? ==> reply == ContentReply(false, s.error, ""))
      && (s.Session? && s.message(msgId).Threw? ==> reply == ContentReply(false, s.message(msgId).error, ""))
      && (s.Session? && s.message(msgId).Returned? ==>
            var m := s.message(msgId).value;
            && (m.Multipart? && FirstDecodeError(m.parts).None? ==>
                  reply == ContentReply(true, "获取成功", TextContent(m.parts)))
            && (m.Multipart? && FirstDecodeError(m.parts).Some? ==>
                  reply == ContentReply(false, FirstDecodeError(m.parts).value, ""))
            && (m.SinglePart? && m.text.Returned? ==> reply == ContentReply(true, "获取成功", m.text.value))
            && (m.SinglePart? && m.text.Threw? ==> reply == ContentReply(false, m.text.error, "")))
  {
    match GetServerInfo(mailType)
    case None => ContentReply(false, UnknownType, "")
    case Some(info) =>
      match connect(info, email, password)
      case LoginFailed(e) => ContentReply(false, e, "")
      case Session(_, _, message) =>
        match message(msgId)
        case Threw(e) => ContentReply(false, e, "")
        case Returned(Multipart(parts)) =>
          (match FirstDecodeError(parts)
           case Some(e) => ContentReply(false, e, "")
           case None => ContentReply(true, "获取成功", TextContent(parts)))
        case Returned(SinglePart(text)) =>
          match text
          case Threw(e) => ContentReply(false, e, "")
          case Returned(t) => ContentReply(true, "获取成功", t)
  }

  /** `get_mail_content`, with the `content +=` loop over the parts. */
  method GetMailContent(
    mailType: string, email: string, password: string, msgId: string,
    connect: (ServerInfo, string, string) -> ImapSession) returns (reply: ContentReply)
    ensures reply == MailContent(mailType, email, password, msgId, connect)
  {
    var info := GetServerInfo(mailType);
    if info.None? {
      return ContentReply(false, UnknownType, "");
    }
    match connect(info.value, email, password)
    case LoginFailed(e) =>
      reply := ContentReply(false, e, "");
    case Session(_, _, message) =>
      var fetched := message(msgId);
      if fetched.Threw? {
        return ContentReply(false, fetched.error, "");
      }
      var content: Attempt<string>;
      match fetched.value {
        case Multipart(parts) =>
          content := CollectTextParts(parts);
        case SinglePart(text) =>
          content := text;
      }
      reply := if content.Threw? then ContentReply(false, content.error, "")
               else ContentReply(true, "获取成功", content.value);
  }

  // ---------------------------------------------------------------------
  // send_email

  /** The message `send_email` builds. */
  datatype OutgoingMail = OutgoingMail(from: string, to: string, subject: string, body: string)

  /** `send_email`: `smtp` is the SMTP_SSL session on the looked-up server
      (login and send_message), an error text when it raises. */
  function SendEmail(
    mailType: string, email: string, password: string, toAddr: string, subject: string, content: string,
    smtp: (ServerInfo, string, string, OutgoingMail) -> Option<string>): (r: (bool, string))
    ensures GetServerInfo(mailType).None? ==> r == (false, UnknownType)
    ensures GetServerInfo(mailType).Some? ==>
      var sent := smtp(GetServerInfo(mailType).value, email, password, OutgoingMail(email, toAddr, subject, content));
      (r.0 <==> sent.None?) && (r.0 ==> r.1 == "发送成功") && (!r.0 ==> r.1 == sent.value)
  {
    match GetServerInfo(mailType)
    case None => (false, UnknownType)
    case Some(info) =>
      match smtp(info, email, password, OutgoingMail(email, toAddr, subject, content))
      case Some(e) => (false, e)
      case None => (true, "发送成功")
  }
}
