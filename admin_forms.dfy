/** The checks the admin page makes before it prompts for the password or
    sends a request: the edit form (`submitEdit`) and the change-password
    form. Form fields are always strings, so a falsy field is the empty
    string. Each check is proved to agree with the rule the server applies
    to the same request. */
module AdminForms {
  import opened Wrappers
  import Server

  const EmptyFieldsNotice := "標題和連結不能為空。"
  const MismatchNotice := "新密碼與確認密碼不相符。"
  const TooShortNotice := "新密碼長度至少需要6個字元。"

  /** What a handler does after its checks: stop with an error notification,
      or go on to the prompt or the request. */
  datatype Check = Stop(notice: string) | Proceed

  /** `submitEdit`: an empty title or link stops before the password prompt.
      The edit goes ahead exactly when the server's title/link check for
      PUT /api/events/:id would pass. */
  function CheckEdit(title: string, link: string): (c: Check)
    ensures c.Proceed? <==> !Server.TitleOrLinkMissing(Some(title), Some(link))
    ensures c.Stop? ==> c.notice == EmptyFieldsNotice
  {
    if title == [] || link == [] then Stop(EmptyFieldsNotice) else Proceed
  }

  /** The change-password form: a confirmation that differs is reported
      first, then a new password shorter than six characters. The request is
      sent exactly when the confirmation matches and the server's length
      check would pass, so the server's 400 is never provoked by this form. */
  function CheckPasswordChange(newPassword: string, confirmNewPassword: string): (c: Check)
    ensures c.Proceed? <==>
      newPassword == confirmNewPassword && !Server.NewPasswordRejected(Some(newPassword))
    ensures newPassword != confirmNewPassword ==> c == Stop(MismatchNotice)
    ensures newPassword == confirmNewPassword && Server.NewPasswordRejected(Some(newPassword)) ==>
      c == Stop(TooShortNotice)
  {
    if newPassword != confirmNewPassword then Stop(MismatchNotice)
    else if |newPassword| < Server.MinPasswordLength then Stop(TooShortNotice)
    else Proceed
  }
}
