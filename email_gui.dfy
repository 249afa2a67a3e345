/** `EmailGui`: the bookkeeping of the main window, without its widgets.
    The saved account list, the pending Outlook slot, and the mailbox page
    cursor with the ids of the page on show are fields the window's handlers
    update in place; what the user selected or typed and what the servers
    answer come in as parameters. */
module EmailGui {
  import opened Wrappers
  import opened PyText
  import opened Accounts
  import TempEmailService
  import EmailHandler
  import MailboxService

  // ---------------------------------------------------------------------
  // The account list.

  /** `email_list[row]["used"] = True` for a row inside the list; any other
      row leaves the list as it is. */
  function MarkedUsed(list: seq<EmailRecord>, row: int): (r: seq<EmailRecord>)
    ensures |r| == |list|
    ensures forall i :: 0 <= i < |list| && i != row ==> r[i] == list[i]
    ensures 0 <= row < |list| ==>
      r[row].used && r[row] == list[row].(used := true)
  {
    if 0 <= row < |list| then list[row := list[row].(used := true)] else list
  }

  /** `email_list.pop(row)` for a row inside the list; any other row leaves
      the list as it is. */
  function Deleted(list: seq<EmailRecord>, row: int): (r: seq<EmailRecord>)
    ensures 0 <= row < |list| ==> |r| == |list| - 1
    ensures 0 <= row < |list| ==>
      (forall i :: 0 <= i < row ==> r[i] == list[i])
      && (forall i :: row <= i < |r| ==> r[i] == list[i + 1])
    ensures !(0 <= row < |list|) ==> r == list
  {
    if 0 <= row < |list| then list[..row] + list[row + 1..] else list
  }

  /** Deleting keeps every other record, each exactly as often as before. */
  lemma DeletedIsRemoval(list: seq<EmailRecord>, row: int)
    requires 0 <= row < |list|
    ensures multiset(Deleted(list, row)) + multiset{list[row]} == multiset(list)
  {
    assert list == list[..row] + [list[row]] + list[row + 1..];
  }

  /** `result.get("token")` of a mail.tm provisioning result. */
  function TokenOf(extra: TempEmailService.Extra): Option<string>
  {
    if extra.Token? then extra.token else None
  }

  /** `result.get("sid_token")` of a GuerrillaMail provisioning result. */
  function SidTokenOf(extra: TempEmailService.Extra): Option<string>
  {
    if extra.SidToken? then Some(extra.sidToken) else None
  }

  /** The record `on_register_finish` appends for a successful non-Outlook
      registration: the address, the password, the type tag, not used, and
      `token` only for mail.tm, `sid_token` only for GuerrillaMail. */
  function RecordFromResult(kind: string, email: string, password: string, extra: TempEmailService.Extra): (rec: EmailRecord)
    ensures rec.email == email && rec.password == password && rec.kind == kind && !rec.used
    ensures "token" in rec.extra <==> kind == "mail.tm"
    ensures "sid_token" in rec.extra <==> kind == "guerrillamail"
    ensures kind == "mail.tm" ==> rec.extra == map["token" := TokenOf(extra)]
    ensures kind == "guerrillamail" ==> rec.extra == map["sid_token" := SidTokenOf(extra)]
    ensures kind != "mail.tm" && kind != "guerrillamail" ==> rec.extra == map[]
  {
    var extras: map<string, Option<string>> :=
      if kind == "mail.tm" then map["token" := TokenOf(extra)]
      else if kind == "guerrillamail" then map["sid_token" := SidTokenOf(extra)]
      else map[];
    EmailRecord(email, password, kind, false, extras)
  }

  /** The record saved for a mail.tm registration authenticates the later
      message fetches with the token the registration obtained: the header
      reads "Bearer <token>", or "Bearer None" when no token came back. */
  lemma MailTmRecordCarriesToken(
    prefix: string, domains: Http<seq<TempEmailService.DomainEntry>>, password: string,
    createAccount: (string, string) -> Http<string>,
    requestToken: (string, string) -> Http<Option<string>>)
    requires TempEmailService.RegisterMailTm(prefix, domains, password, createAccount, requestToken).ProvisionOk?
    ensures var p := TempEmailService.RegisterMailTm(prefix, domains, password, createAccount, requestToken);
      var rec := RecordFromResult("mail.tm", p.email, p.password, p.extra);
      && p.extra.Token?
      && EmailHandler.BearerHeader(rec) == "Bearer " + OptionText(p.extra.token)
  {
  }

  /** The record saved for a GuerrillaMail registration hands its session
      token to the later message fetches. */
  lemma GuerrillaRecordCarriesSidToken(response: Http<TempEmailService.GuerrillaAddress>)
    requires TempEmailService.RegisterGuerrillamail(response).ProvisionOk?
    ensures var p := TempEmailService.RegisterGuerrillamail(response);
      var rec := RecordFromResult("guerrillamail", p.email, p.password, p.extra);
      GetExtra(rec, "sid_token") == response.body.sidToken
  {
  }

  // ---------------------------------------------------------------------
  // The mailbox page cursor.

  /** `goto_mail_next_page`: move up only while below
      `(count - 1) // size`. */
  function NextPage(page: int, count: int, size: int): (r: int)
    requires size > 0
    ensures page <= r <= page + 1
    ensures count <= 0 && page >= 0 ==> r == page
  {
    if page < (count - 1) / size then page + 1 else page
  }

  /** `goto_mail_prev_page`: move down only from above 0. */
  function PrevPage(page: int): (r: int)
    ensures page >= 0 ==> r >= 0
    ensures page > 0 ==> r == page - 1
    ensures page <= 0 ==> r == page
  {
    if page > 0 then page - 1 else page
  }

  /** With no mails counted the bound is `(0 - 1) // size == -1`, so the
      next-page button never moves a page index that is not negative. */
  lemma NextPageStaysWhenEmpty(page: int, size: int)
    requires size > 0 && page >= 0
    ensures NextPage(page, 0, size) == page
  {
    assert (0 - 1) / size == -1;
  }

  /** The next-page button only moves onto a page that holds mails: after a
      move, `page * size` is below the count, so the new page is not empty
      and the cursor never passes the last page. */
  lemma NextPageLandsOnMail(allIds: seq<string>, page: nat, size: int)
    requires size > 0
    ensures NextPage(page, |allIds|, size) >= page
    ensures NextPage(page, |allIds|, size) != page ==>
      NextPage(page, |allIds|, size) * size < |allIds|
      && |MailboxService.PageIds(allIds, NextPage(page, |allIds|, size), size)| > 0
  {
    var n := NextPage(page, |allIds|, size);
    if n != page {
      var q := (|allIds| - 1) / size;
      assert n <= q;
      MailboxService.MulMono(n, q, size);
      MailboxService.DivFloor(|allIds| - 1, size);
      MailboxService.PageNewestFirst(allIds, n, size, 0);
      MailboxService.PageBounds(|allIds|, n, size);
    }
  }

  // ---------------------------------------------------------------------
  // The `success, msg, mail_list, total = ...` unpacking.

  /** Unpacking the reply into four names: a three-value reply raises
      ValueError, here None. */
  function UnpackListReply(reply: MailboxService.ListReply): (r: Option<(bool, string, seq<MailboxService.MailSummary>, nat)>)
    ensures r.Some? <==> reply.Quad?
    ensures r.Some? ==> r.value == (reply.ok, reply.message, reply.mails, reply.total)
  {
    match reply
    case Triple(_, _, _) => None
    case Quad(ok, message, mails, total) => Some((ok, message, mails, total))
  }

  /** As written, a failed SEARCH on a QQ mailbox cannot be unpacked: the
      refresh raises instead of reporting the failure. */
  lemma AsWrittenSearchFailureBreaksRefresh(
    email: string, password: string, page: int, size: int,
    connect: (MailboxService.ServerInfo, string, string) -> MailboxService.ImapSession)
    requires connect(MailboxService.GetServerInfo("qq").value, email, password).Session?
    requires connect(MailboxService.GetServerInfo("qq").value, email, password).searchAll.Returned?
    requires !connect(MailboxService.GetServerInfo("qq").value, email, password).searchAll.value.ok
    ensures UnpackListReply(MailboxService.MailListAsWritten("qq", email, password, page, size, connect)).None?
  {
  }

  /** With four values on every path, every reply unpacks. */
  lemma RepliesAlwaysUnpack(
    mailType: string, email: string, password: string, page: int, size: int,
    connect: (MailboxService.ServerInfo, string, string) -> MailboxService.ImapSession)
    ensures UnpackListReply(MailboxService.MailList(mailType, email, password, page, size, connect)).Some?
  {
  }

  /** The ids of the listed mails, in order. */
  function SummaryIds(mails: seq<MailboxService.MailSummary>): (ids: seq<string>)
    ensures |ids| == |mails|
    ensures forall k :: 0 <= k < |mails| ==> ids[k] == mails[k].id
  {
    if mails == [] then [] else SummaryIds(mails[..|mails| - 1]) + [mails[|mails| - 1].id]
  }

  /** A successful refresh mirrors exactly the ids of the requested page,
      newest first, and at most one page of them. */
  lemma RefreshMirrorsPage(
    mailType: string, email: string, password: string, page: nat, size: int,
    connect: (MailboxService.ServerInfo, string, string) -> MailboxService.ImapSession)
    requires size > 0
    requires MailboxService.MailList(mailType, email, password, page, size, connect).ok
    ensures var info := MailboxService.GetServerInfo(mailType).value;
      var allIds := connect(info, email, password).searchAll.value.ids;
      var reply := MailboxService.MailList(mailType, email, password, page, size, connect);
      && SummaryIds(reply.mails) == MailboxService.PageIds(allIds, page, size)
      && reply.total == |allIds|
      && |SummaryIds(reply.mails)| <= size
  {
    var info := MailboxService.GetServerInfo(mailType).value;
    var allIds := connect(info, email, password).searchAll.value.ids;
    MailboxService.PageNewestFirst(allIds, page, size, 0);
  }

  // ---------------------------------------------------------------------
  // The window.

  class EmailRegisterApp {
    /** `email_list`: the saved accounts, in list order. */
    var emailList: seq<EmailRecord>
    /** `pending_outlook_account`. */
    var pendingOutlookAccount: Option<EmailRecord>
    /** `_mail_page_size`. */
    const mailPageSize: int
    /** `_mail_current_page`. */
    var mailCurrentPage: int
    /** `_all_mail_count`. */
    var allMailCount: int
    /** `_current_mail_ids`: the ids of the mails on show, in list order. */
    var currentMailIds: seq<string>

    /** The page cursor is a page index, the count a count, and the mirrored
        ids at most one page. */
    ghost predicate Valid()
      reads this
    {
      mailPageSize == 10 && mailCurrentPage >= 0 && allMailCount >= 0
      && |currentMailIds| <= mailPageSize
    }

    /** `__init__`: the list loaded from disk, no pending account, the page
        cursor at 0 with nothing counted or shown. */
    constructor(loaded: seq<EmailRecord>)
      ensures Valid()
      ensures emailList == loaded && pendingOutlookAccount == None
      ensures mailCurrentPage == 0 && allMailCount == 0 && currentMailIds == []
    {
      emailList := loaded;
      pendingOutlookAccount := None;
      mailPageSize := 10;
      mailCurrentPage := 0;
      allMailCount := 0;
      currentMailIds := [];
    }

    /** `mark_email_used` on the selected row (-1 when none). */
    method MarkEmailUsed(row: int)
      requires Valid()
      modifies this
      ensures Valid()
      ensures emailList == MarkedUsed(old(emailList), row)
      ensures pendingOutlookAccount == old(pendingOutlookAccount)
      ensures mailCurrentPage == old(mailCurrentPage) && allMailCount == old(allMailCount)
      ensures currentMailIds == old(currentMailIds)
    {
      if row >= 0 && row < |emailList| {
        emailList := emailList[row := emailList[row].(used := true)];
      }
    }

    /** `delete_email` on the selected row (-1 when none). */
    method DeleteEmail(row: int)
      requires Valid()
      modifies this
      ensures Valid()
      ensures emailList == Deleted(old(emailList), row)
      ensures pendingOutlookAccount == old(pendingOutlookAccount)
      ensures mailCurrentPage == old(mailCurrentPage) && allMailCount == old(allMailCount)
      ensures currentMailIds == old(currentMailIds)
    {
      if row >= 0 && row < |emailList| {
        emailList := emailList[..row] + emailList[row + 1..];
      }
    }

    /** `on_register_finish`: a successful Outlook registration fills the
        pending slot, any other success appends its record, a failure changes
        nothing. */
    method OnRegisterFinish(kind: string, result: TempEmailService.Provision)
      requires Valid()
      modifies this
      ensures Valid()
      ensures result.ProvisionErr? ==>
        emailList == old(emailList) && pendingOutlookAccount == old(pendingOutlookAccount)
      ensures result.ProvisionOk? && kind == "outlook" ==>
        emailList == old(emailList)
        && pendingOutlookAccount == Some(EmailRecord(result.email, result.password, "outlook", false, map[]))
      ensures result.ProvisionOk? && kind != "outlook" ==>
        emailList == old(emailList) + [RecordFromResult(kind, result.email, result.password, result.extra)]
        && pendingOutlookAccount == old(pendingOutlookAccount)
      ensures mailCurrentPage == old(mailCurrentPage) && allMailCount == old(allMailCount)
      ensures currentMailIds == old(currentMailIds)
    {
      match result
      case ProvisionErr(_) =>
      case ProvisionOk(email, password, extra) =>
        if kind == "outlook" {
          pendingOutlookAccount := Some(EmailRecord(email, password, "outlook", false, map[]));
        } else {
          var info := RecordFromResult(kind, email, password, extra);
          emailList := emailList + [info];
        }
    }

    /** `verify_outlook_registration`: the pending record is appended once
        and the slot cleared; with nothing pending nothing happens. */
    method VerifyOutlookRegistration()
      requires Valid()
      modifies this
      ensures Valid()
      ensures old(pendingOutlookAccount).Some? ==>
        emailList == old(emailList) + [old(pendingOutlookAccount).value] && pendingOutlookAccount == None
      ensures old(pendingOutlookAccount).None? ==>
        emailList == old(emailList) && pendingOutlookAccount == None
      ensures mailCurrentPage == old(mailCurrentPage) && allMailCount == old(allMailCount)
      ensures currentMailIds == old(currentMailIds)
    {
      if pendingOutlookAccount.Some? {
        emailList := emailList + [pendingOutlookAccount.value];
        pendingOutlookAccount := None;
      }
    }

    /** `fetch_mailbox` for the current page: with an address and a password
        given, a successful reply sets the count and mirrors the listed ids;
        a failed one leaves both as they were. */
    method FetchMailbox(
      mailType: string, email: string, password: string,
      connect: (MailboxService.ServerInfo, string, string) -> MailboxService.ImapSession)
      requires Valid()
      modifies this
      ensures Valid()
      ensures emailList == old(emailList) && pendingOutlookAccount == old(pendingOutlookAccount)
      ensures mailCurrentPage == old(mailCurrentPage)
      ensures var reply := MailboxService.MailList(mailType, email, password, mailCurrentPage, mailPageSize, connect);
        if email != "" && password != "" && reply.ok then
          allMailCount == reply.total && currentMailIds == SummaryIds(reply.mails)
        else
          allMailCount == old(allMailCount) && currentMailIds == old(currentMailIds)
    {
      if email == "" || password == "" {
        return;
      }
      var reply := MailboxService.FetchMailList(mailType, email, password, mailCurrentPage, mailPageSize, connect);
      var unpacked := UnpackListReply(reply);
      var (success, _, mailList, total) := unpacked.value;
      if success {
        RefreshMirrorsPage(mailType, email, password, mailCurrentPage, mailPageSize, connect);
        allMailCount := total;
        MirrorMailIds(mailList);
      }
    }

    /** The loop of `fetch_mailbox` that clears `_current_mail_ids` and
        appends the id of each listed mail. */
    method MirrorMailIds(mailList: seq<MailboxService.MailSummary>)
      requires Valid() && |mailList| <= mailPageSize
      modifies this
      ensures Valid()
      ensures currentMailIds == SummaryIds(mailList)
      ensures emailList == old(emailList) && pendingOutlookAccount == old(pendingOutlookAccount)
      ensures mailCurrentPage == old(mailCurrentPage) && allMailCount == old(allMailCount)
    {
      currentMailIds := [];
      for i := 0 to |mailList|
        invariant currentMailIds == SummaryIds(mailList[..i])
        invariant emailList == old(emailList) && pendingOutlookAccount == old(pendingOutlookAccount)
        invariant mailCurrentPage == old(mailCurrentPage) && allMailCount == old(allMailCount)
      {
        assert mailList[..i + 1][..i] == mailList[..i];
        currentMailIds := currentMailIds + [mailList[i].id];
      }
      assert mailList[..|mailList|] == mailList;
    }

    /** `goto_mail_first_page`: back to page 0, refreshing only when the
        cursor was elsewhere. */
    method GotoMailFirstPage(
      mailType: string, email: string, password: string,
      connect: (MailboxService.ServerInfo, string, string) -> MailboxService.ImapSession)
      requires Valid()
      modifies this
      ensures Valid()
      ensures mailCurrentPage == 0
      ensures emailList == old(emailList) && pendingOutlookAccount == old(pendingOutlookAccount)
      ensures old(mailCurrentPage) == 0 ==>
        allMailCount == old(allMailCount) && currentMailIds == old(currentMailIds)
      ensures old(mailCurrentPage) != 0 ==>
        var reply := MailboxService.MailList(mailType, email, password, 0, mailPageSize, connect);
        if email != "" && password != "" && reply.ok then
          allMailCount == reply.total && currentMailIds == SummaryIds(reply.mails)
        else
          allMailCount == old(allMailCount) && currentMailIds == old(currentMailIds)
    {
      if mailCurrentPage != 0 {
        mailCurrentPage := 0;
        FetchMailbox(mailType, email, password, connect);
      }
    }

    /** `goto_mail_prev_page`: one page down unless already on page 0. */
    method GotoMailPrevPage(
      mailType: string, email: string, password: string,
      connect: (MailboxService.ServerInfo, string, string) -> MailboxService.ImapSession)
      requires Valid()
      modifies this
      ensures Valid()
      ensures mailCurrentPage == PrevPage(old(mailCurrentPage))
      ensures emailList == old(emailList) && pendingOutlookAccount == old(pendingOutlookAccount)
      ensures old(mailCurrentPage) == 0 ==>
        allMailCount == old(allMailCount) && currentMailIds == old(currentMailIds)
      ensures old(mailCurrentPage) != 0 ==>
        var reply := MailboxService.MailList(mailType, email, password, mailCurrentPage, mailPageSize, connect);
        if email != "" && password != "" && reply.ok then
          allMailCount == reply.total && currentMailIds == SummaryIds(reply.mails)
        else
          allMailCount == old(allMailCount) && currentMailIds == old(currentMailIds)
    {
      if mailCurrentPage > 0 {
        mailCurrentPage := mailCurrentPage - 1;
        FetchMailbox(mailType, email, password, connect);
      }
    }

    /** `goto_mail_next_page`: one page up while below the last page the
        count allows. */
    method GotoMailNextPage(
      mailType: string, email: string, password: string,
      connect: (MailboxService.ServerInfo, string, string) -> MailboxService.ImapSession)
      requires Valid()
      modifies this
      ensures Valid()
      ensures mailCurrentPage == NextPage(old(mailCurrentPage), old(allMailCount), mailPageSize)
      ensures emailList == old(emailList) && pendingOutlookAccount == old(pendingOutlookAccount)
      ensures mailCurrentPage == old(mailCurrentPage) ==>
        allMailCount == old(allMailCount) && currentMailIds == old(currentMailIds)
      ensures mailCurrentPage != old(mailCurrentPage) ==>
        var reply := MailboxService.MailList(mailType, email, password, mailCurrentPage, mailPageSize, connect);
        if email != "" && password != "" && reply.ok then
          allMailCount == reply.total && currentMailIds == SummaryIds(reply.mails)
        else
          allMailCount == old(allMailCount) && currentMailIds == old(currentMailIds)
    {
      var maxPage := (allMailCount - 1) / mailPageSize;
      if mailCurrentPage < maxPage {
        mailCurrentPage := mailCurrentPage + 1;
        FetchMailbox(mailType, email, password, connect);
      }
    }

    /** `on_mail_item_clicked`: a row outside the mirrored ids is ignored;
        otherwise the content of the mail with that row's id is requested.
        Nothing of the window's state changes. */
    method OnMailItemClicked(
      row: int, mailType: string, email: string, password: string,
      connect: (MailboxService.ServerInfo, string, string) -> MailboxService.ImapSession)
      returns (shown: Option<MailboxService.ContentReply>)
      requires Valid()
      ensures shown.None? <==> !(0 <= row < |currentMailIds|)
      ensures shown.Some? ==>
        shown.value == MailboxService.MailContent(mailType, email, password, currentMailIds[row], connect)
    {
      if row < 0 || row >= |currentMailIds| {
        return None;
      }
      var mailId := currentMailIds[row];
      var reply := MailboxService.GetMailContent(mailType, email, password, mailId, connect);
      shown := Some(reply);
    }
  }
}
