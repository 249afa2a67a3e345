/** `TempEmailService`: generation of local credentials and the checks that
    turn the three REST providers' answers into a provisioning result. The
    HTTP calls are parameters; the Edge-driven Outlook signup is not part of
    this model. */
module TempEmailService {
  import opened Wrappers
  import opened PyText

  const AsciiLowercase: string := "abcdefghijklmnopqrstuvwxyz"
  const AsciiUppercase: string := "ABCDEFGHIJKLMNOPQRSTUVWXYZ"
  const AsciiDigits: string := "0123456789"
  const PasswordSymbols: string := "!@#$%"
  /** `string.ascii_lowercase + string.digits`. */
  const PrefixAlphabet: string := AsciiLowercase + AsciiDigits
  /** `string.ascii_letters + string.digits + '!@#$%'`. */
  const PasswordAlphabet: string := AsciiLowercase + AsciiUppercase + AsciiDigits + PasswordSymbols

  /** The provisioning result dictionary. `extra` holds the keys only some
      providers return. */
  datatype Provision =
    | ProvisionOk(email: string, password: string, extra: Extra)
    | ProvisionErr(message: string)

  datatype Extra =
    | NoExtra
    | Token(token: Option<string>)    // mail.tm: "token", possibly null
    | SidToken(sidToken: string)      // GuerrillaMail: "sid_token"

  // ---------------------------------------------------------------------
  // Random credentials. `random.choice`/`random.choices` pick positions in
  // the population; the picks are passed in.

  /** `''.join(random.choices(population, k=|picks|))`. */
  function Choices(population: string, picks: seq<nat>): (r: string)
    requires forall i :: 0 <= i < |picks| ==> picks[i] < |population|
    ensures |r| == |picks|
    ensures forall i :: 0 <= i < |r| ==> r[i] in population
  {
    seq(|picks|, i requires 0 <= i < |picks| => population[picks[i]])
  }

  /** Position of `c` in `population`. */
  function PositionOf(population: string, c: char): (p: nat)
    requires c in population
    ensures p < |population| && population[p] == c
  {
    if population[0] == c then 0 else 1 + PositionOf(population[1..], c)
  }

  /** Every string over the population is a possible outcome of `Choices`. */
  lemma ChoicesReachEveryString(population: string, s: string) returns (picks: seq<nat>)
    requires forall i :: 0 <= i < |s| ==> s[i] in population
    ensures forall i :: 0 <= i < |picks| ==> picks[i] < |population|
    ensures Choices(population, picks) == s
  {
    picks := seq(|s|, i requires 0 <= i < |s| => PositionOf(population, s[i]));
  }

  /** An 8-character mailbox prefix: a lower-case letter, then seven lower-case
      letters or digits. */
  predicate ValidPrefix(p: string)
  {
    |p| == 8 && p[0] in AsciiLowercase && forall i :: 1 <= i < 8 ==> p[i] in PrefixAlphabet
  }

  /** `generate_email_prefix`: one pick from the lower-case letters, seven
      from letters and digits. */
  function GenerateEmailPrefix(first: nat, rest: seq<nat>): (p: string)
    requires first < |AsciiLowercase|
    requires |rest| == 7 && forall i :: 0 <= i < 7 ==> rest[i] < |PrefixAlphabet|
    ensures ValidPrefix(p)
  {
    Choices(AsciiLowercase, [first]) + Choices(PrefixAlphabet, rest)
  }

  /** Every valid prefix can be generated. */
  lemma {:induction false} EveryValidPrefixIsGenerated(p: string) returns (first: nat, rest: seq<nat>)
    requires ValidPrefix(p)
    ensures first < |AsciiLowercase|
    ensures |rest| == 7 && forall i :: 0 <= i < 7 ==> rest[i] < |PrefixAlphabet|
    ensures GenerateEmailPrefix(first, rest) == p
  {
    first := PositionOf(AsciiLowercase, p[0]);
    var tail := p[1..];
    assert forall i :: 0 <= i < |tail| ==> tail[i] == p[i + 1];
    rest := ChoicesReachEveryString(PrefixAlphabet, tail);
    var head := Choices(AsciiLowercase, [first]);
    assert head == [p[0]];
    assert head + tail == p;
  }

  /** A 12-character password over letters, digits and `!@#$%`. */
  predicate ValidPassword(pw: string)
  {
    |pw| == 12 && forall i :: 0 <= i < |pw| ==> pw[i] in PasswordAlphabet
  }

  /** The password lines of `register_outlook` and `register_mail_tm`. */
  function GeneratePassword(picks: seq<nat>): (pw: string)
    requires |picks| == 12 && forall i :: 0 <= i < 12 ==> picks[i] < |PasswordAlphabet|
    ensures ValidPassword(pw)
  {
    Choices(PasswordAlphabet, picks)
  }

  /** No generated prefix contains '@', so the address splits back at it. */
  lemma {:induction false} GeneratedAddressSplitsBack(prefix: string, domain: string)
    requires ValidPrefix(prefix)
    ensures SplitOnce(prefix + "@" + domain, '@') == Some((prefix, domain))
  {
    var a := prefix + "@" + domain;
    forall i | 0 <= i < |prefix| ensures prefix[i] != '@' {
      if i == 0 {
        assert prefix[0] in AsciiLowercase;
      } else {
        assert prefix[i] in PrefixAlphabet;
      }
    }
    SplitAtFirstSeparator(a, '@', |prefix|);
    assert a[..|prefix|] == prefix;
    assert a[|prefix| + 1..] == domain;
  }

  /** `SplitOnce` cuts at the first separator. */
  lemma {:induction false} SplitAtFirstSeparator(s: string, sep: char, n: nat)
    requires n < |s| && s[n] == sep && sep !in s[..n]
    ensures SplitOnce(s, sep) == Some((s[..n], s[n + 1..]))
    decreases n
  {
    if n > 0 {
      assert s[0] in s[..n];
      assert s[1..][..n - 1] == s[1..n];
      assert forall c :: c in s[1..n] ==> c in s[..n];
      SplitAtFirstSeparator(s[1..], sep, n - 1);
      assert [s[0]] + s[1..n] == s[..n];
    }
  }

  // ---------------------------------------------------------------------
  // Provisioning checks.

  /** One entry of mail.tm's `hydra:member` domain list; `domain` may be
      missing. */
  datatype DomainEntry = DomainEntry(domain: Option<string>)

  /** The address mail.tm provisioning builds: `f"{prefix}@{domain}"` with the
      first listed domain (a missing one prints as "None"). */
  function MailTmAddress(prefix: string, members: seq<DomainEntry>): string
    requires |members| > 0
  {
    prefix + "@" + OptionText(members[0].domain)
  }

  /** `register_mail_tm`. `domains` is the GET of the domain list (its
      `hydra:member`, empty when absent); `createAccount` and `requestToken`
      are the two POSTs, as functions of the address and password sent. */
  function RegisterMailTm(
    prefix: string,
    domains: Http<seq<DomainEntry>>,
    password: string,
    createAccount: (string, string) -> Http<string>,
    requestToken: (string, string) -> Http<Option<string>>): (r: Provision)
    ensures r.ProvisionOk? <==>
      && domains.Responded? && domains.status == 200 && |domains.body| > 0
      && var address := MailTmAddress(prefix, domains.body);
         && createAccount(address, password).Responded?
         && createAccount(address, password).status in {200, 201}
         && requestToken(address, password).Responded?
    ensures r.ProvisionOk? ==>
      && r.email == MailTmAddress(prefix, domains.body)
      && r.password == password
      && r.extra == Token(requestToken(r.email, password).body)
    ensures domains.Responded? && domains.status != 200 ==>
      r == ProvisionErr("获取域名失败：" + DecimalString(domains.status))
    ensures domains.Responded? && domains.status == 200 && domains.body == [] ==>
      r == ProvisionErr("无可用域名")
    ensures domains.Responded? && domains.status == 200 && |domains.body| > 0 ==>
      var created := createAccount(MailTmAddress(prefix, domains.body), password);
      created.Responded? && created.status !in {200, 201} ==> r == ProvisionErr("创建失败：" + created.body)
  {
    match domains
    case Raised(e) => ProvisionErr(e)
    case Responded(status, members) =>
      if status != 200 then ProvisionErr("获取域名失败：" + DecimalString(status))
      else if members == [] then ProvisionErr("无可用域名")
      else
        var address := MailTmAddress(prefix, members);
        match createAccount(address, password)
        case Raised(e) => ProvisionErr(e)
        case Responded(accStatus, text) =>
          if accStatus !in {200, 201} then ProvisionErr("创建失败：" + text)
          else
            match requestToken(address, password)
            case Raised(e) => ProvisionErr(e)
            case Responded(_, token) => ProvisionOk(address, password, Token(token))
  }

  /** mail.tm provisioning does not fail when the token answer carries no
      token: it reports success with a null token. */
  lemma MailTmSucceedsWithoutToken(
    prefix: string,
    domains: Http<seq<DomainEntry>>,
    password: string,
    createAccount: (string, string) -> Http<string>,
    requestToken: (string, string) -> Http<Option<string>>)
    requires domains.Responded? && domains.status == 200 && |domains.body| > 0
    requires createAccount(MailTmAddress(prefix, domains.body), password) == Responded(201, "")
    requires requestToken(MailTmAddress(prefix, domains.body), password).Responded?
    requires requestToken(MailTmAddress(prefix, domains.body), password).body == None
    ensures RegisterMailTm(prefix, domains, password, createAccount, requestToken).ProvisionOk?
    ensures RegisterMailTm(prefix, domains, password, createAccount, requestToken).extra == Token(None)
  {
  }

  /** A generated mail.tm address is `prefix@domain` and splits back into
      the prefix and the first listed domain at its first '@'. */
  lemma {:induction false} MailTmAddressShape(
    prefix: string,
    domains: Http<seq<DomainEntry>>,
    password: string,
    createAccount: (string, string) -> Http<string>,
    requestToken: (string, string) -> Http<Option<string>>)
    requires ValidPrefix(prefix)
    requires RegisterMailTm(prefix, domains, password, createAccount, requestToken).ProvisionOk?
    ensures var r := RegisterMailTm(prefix, domains, password, createAccount, requestToken);
      SplitOnce(r.email, '@') == Some((prefix, OptionText(domains.body[0].domain)))
  {
    GeneratedAddressSplitsBack(prefix, OptionText(domains.body[0].domain));
  }

  /** `register_mail_tm` draws its prefix with `generate_email_prefix` and
      its password with `random.choices` itself: with those two draws, a
      created account's address splits at its '@' into the generated prefix
      and the first listed domain, and both generated parts keep their
      shape. */
  lemma MailTmProvisionShape(
    first: nat, rest: seq<nat>, pwPicks: seq<nat>,
    domains: Http<seq<DomainEntry>>,
    createAccount: (string, string) -> Http<string>,
    requestToken: (string, string) -> Http<Option<string>>)
    requires first < |AsciiLowercase|
    requires |rest| == 7 && forall i :: 0 <= i < 7 ==> rest[i] < |PrefixAlphabet|
    requires |pwPicks| == 12 && forall i :: 0 <= i < 12 ==> pwPicks[i] < |PasswordAlphabet|
    requires RegisterMailTm(GenerateEmailPrefix(first, rest), domains, GeneratePassword(pwPicks), createAccount, requestToken).ProvisionOk?
    ensures var prefix := GenerateEmailPrefix(first, rest);
      var r := RegisterMailTm(prefix, domains, GeneratePassword(pwPicks), createAccount, requestToken);
      && SplitOnce(r.email, '@') == Some((prefix, OptionText(domains.body[0].domain)))
      && ValidPrefix(SplitOnce(r.email, '@').value.0)
      && r.password == GeneratePassword(pwPicks)
      && ValidPassword(r.password)
  {
    MailTmAddressShape(GenerateEmailPrefix(first, rest), domains, GeneratePassword(pwPicks), createAccount, requestToken);
  }

  /** `register_1secmail`: the GET of `genRandomMailbox` answers a list of
      addresses; the first one is the account, with an empty password. */
  function Register1secmail(response: Http<seq<string>>): (r: Provision)
    ensures r.ProvisionOk? <==> response.Responded? && response.status == 200 && |response.body| > 0
    ensures r.ProvisionOk? ==> r == ProvisionOk(response.body[0], "", NoExtra)
    ensures response.Responded? && response.status != 200 ==>
      r == ProvisionErr("创建失败：" + DecimalString(response.status))
    ensures response.Responded? && response.status == 200 && response.body == [] ==>
      r == ProvisionErr("未返回邮箱地址")
  {
    match response
    case Raised(e) => ProvisionErr(e)
    case Responded(status, data) =>
      if status != 200 then ProvisionErr("创建失败：" + DecimalString(status))
      else if data == [] then ProvisionErr("未返回邮箱地址")
      else ProvisionOk(data[0], "", NoExtra)
  }

  /** The `email_addr` and `sid_token` fields of GuerrillaMail's
      `get_email_address` answer, each possibly missing. */
  datatype GuerrillaAddress = GuerrillaAddress(emailAddr: Option<string>, sidToken: Option<string>)

  /** `register_guerrillamail`. */
  function RegisterGuerrillamail(response: Http<GuerrillaAddress>): (r: Provision)
    ensures r.ProvisionOk? <==>
      response.Responded? && response.status == 200
      && Truthy(response.body.emailAddr) && Truthy(response.body.sidToken)
    ensures r.ProvisionOk? ==>
      r == ProvisionOk(response.body.emailAddr.value, "", SidToken(response.body.sidToken.value))
    ensures response.Responded? && response.status != 200 ==>
      r == ProvisionErr("创建失败：" + DecimalString(response.status))
    ensures response.Responded? && response.status == 200 && !r.ProvisionOk? ==>
      r == ProvisionErr("信息不完整")
  {
    match response
    case Raised(e) => ProvisionErr(e)
    case Responded(status, data) =>
      if status != 200 then ProvisionErr("创建失败：" + DecimalString(status))
      else if !Truthy(data.emailAddr) || !Truthy(data.sidToken) then ProvisionErr("信息不完整")
      else ProvisionOk(data.emailAddr.value, "", SidToken(data.sidToken.value))
  }
}
