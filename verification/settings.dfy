/** The exam settings dialog: invite code, free or paid, price, and the checks
    its Confirm button makes before it submits.
 */
module Settings {
  import opened Exam

  /** The two buttons of the free/paid radio group. */
  datatype Pricing = Free | Paid

  /** Choosing free or paid: paid keeps the price typed so far, free forces it
      to 0, so either way the price is 0 unless the exam is paid. */
  function ChoosePricing(s: ExamSettings, choice: Pricing): (r: ExamSettings)
    ensures r.isPaid <==> choice == Paid
    ensures choice == Free ==> r.price == 0.0
    ensures choice == Paid ==> r.price == s.price
    ensures r.inviteCode == s.inviteCode
    ensures PriceOnlyWhenPaid(r)
  {
    s.(isPaid := choice == Paid, price := if choice == Free then 0.0 else s.price)
  }

  /** The invite code input, and the Generate button with the code it drew. */
  function SetInviteCode(s: ExamSettings, code: string): (r: ExamSettings)
    ensures r.inviteCode == code
    ensures r.isPaid == s.isPaid && r.price == s.price
    ensures PriceOnlyWhenPaid(r) <==> PriceOnlyWhenPaid(s)
  {
    s.(inviteCode := code)
  }

  /** The price input, already parsed (`parseFloat(value) || 0`). It is shown
      only for a paid exam, where any price keeps the price rule. */
  function SetPrice(s: ExamSettings, price: real): (r: ExamSettings)
    ensures r.price == price
    ensures r.inviteCode == s.inviteCode && r.isPaid == s.isPaid
    ensures PriceOnlyWhenPaid(r) <==> s.isPaid || price == 0.0
  {
    s.(price := price)
  }

  /** Settings the Confirm button lets through: an invite code, and a
      positive price when the exam is paid. */
  predicate SettingsAccepted(s: ExamSettings) {
    s.inviteCode != "" && (s.isPaid ==> s.price > 0.0)
  }

  datatype Check = Pass | Fail(reason: Reason)

  /** The Confirm button's two checks, in order: a missing invite code is
      reported before a missing price, and the check passes exactly when the
      settings are acceptable. */
  function ConfirmCheck(s: ExamSettings): (c: Check)
    ensures c.Pass? <==> SettingsAccepted(s)
    ensures c == Fail(MissingInviteCode) <==> s.inviteCode == ""
    ensures c == Fail(InvalidPrice) <==> s.inviteCode != "" && s.isPaid && s.price <= 0.0
  {
    if s.inviteCode == "" then Fail(MissingInviteCode)
    else if s.isPaid && s.price <= 0.0 then Fail(InvalidPrice)
    else Pass
  }
}
