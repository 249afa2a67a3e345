/** The saved account record: one entry of the GUI's `email_list` and the
    `email_info` dictionary that the retrieval functions read. */
module Accounts {
  import opened Wrappers

  /** The fixed keys `email`, `password`, `type` and `used`, plus the
      provider-specific keys (`token` for mail.tm, `sid_token` for
      GuerrillaMail) in `extra`; a key present with value null maps to None. */
  datatype EmailRecord = EmailRecord(
    email: string,
    password: string,
    kind: string,
    used: bool,
    extra: map<string, Option<string>>)

  /** The message every service returns for a `type` tag it does not
      know. */
  const UnknownType: string := "未知邮箱类型"

  /** `email_info.get(key)` on a provider-specific key. */
  function GetExtra(info: EmailRecord, key: string): Option<string>
  {
    if key in info.extra then info.extra[key] else None
  }
}
