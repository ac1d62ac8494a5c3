/** Display labels for the short codes of the forms (`channelLabel`, `roleLabel`,
    `statusLabel`, js/app.js:58-69 and 194-201). Each resolver compares strings
    with a fallback; the closed enumerations below are the reference it is
    checked against. */
module Labels {

  /** What every resolver shows for a code it does not know. */
  const Fallback: string := "—"

  datatype Role = Teacher | Student | Admin

  datatype Channel = Telegram | EmailChannel

  function RoleCode(r: Role): string {
    match r
    case Teacher => "teacher"
    case Student => "student"
    case Admin => "admin"
  }

  function RoleName(r: Role): string {
    match r
    case Teacher => "Преподаватель"
    case Student => "Студент"
    case Admin => "Администратор"
  }

  function ChannelCode(c: Channel): string {
    match c
    case Telegram => "telegram"
    case EmailChannel => "email"
  }

  function ChannelName(c: Channel): string {
    match c
    case Telegram => "Telegram"
    case EmailChannel => "Email"
  }

  /** `channelLabel`: the name of the channel whose code is `ch`, or the fallback. */
  function ChannelLabel(ch: string): (r: string)
    ensures forall c: Channel :: ch == ChannelCode(c) ==> r == ChannelName(c)
    ensures (forall c: Channel :: ch != ChannelCode(c)) ==> r == Fallback
  {
    if ch == "telegram" then assert ch == ChannelCode(Telegram); "Telegram"
    else if ch == "email" then assert ch == ChannelCode(EmailChannel); "Email"
    else "—"
  }

  /** `roleLabel`: the name of the role whose code is `role`, or the fallback. */
  function RoleLabel(role: string): (r: string)
    ensures forall x: Role :: role == RoleCode(x) ==> r == RoleName(x)
    ensures (forall x: Role :: role != RoleCode(x)) ==> r == Fallback
  {
    match role
    case "teacher" => assert role == RoleCode(Teacher); "Преподаватель"
    case "student" => assert role == RoleCode(Student); "Студент"
    case "admin" => assert role == RoleCode(Admin); "Администратор"
    case _ => "—"
  }

  /** `statusLabel`: the demo form's status uses the role vocabulary. */
  function StatusLabel(status: string): (r: string)
    ensures forall x: Role :: status == RoleCode(x) ==> r == RoleName(x)
    ensures (forall x: Role :: status != RoleCode(x)) ==> r == Fallback
  {
    match status
    case "teacher" => assert status == RoleCode(Teacher); "Преподаватель"
    case "student" => assert status == RoleCode(Student); "Студент"
    case "admin" => assert status == RoleCode(Admin); "Администратор"
    case _ => "—"
  }

  /** The two copies of the role switch agree on every input. */
  lemma StatusAgreesWithRole(code: string)
    ensures StatusLabel(code) == RoleLabel(code)
  {
  }

  /** A label other than the fallback names exactly one role code. */
  lemma RoleLabelInjective(a: string, b: string)
    requires RoleLabel(a) == RoleLabel(b) && RoleLabel(a) != Fallback
    ensures a == b
  {
  }

  /** A label other than the fallback names exactly one channel code. */
  lemma ChannelLabelInjective(a: string, b: string)
    requires ChannelLabel(a) == ChannelLabel(b) && ChannelLabel(a) != Fallback
    ensures a == b
  {
  }

  /** The fallback is shown exactly for unknown codes. */
  lemma FallbackIffUnknown(code: string)
    ensures RoleLabel(code) == Fallback <==> forall x: Role :: code != RoleCode(x)
    ensures ChannelLabel(code) == Fallback <==> forall c: Channel :: code != ChannelCode(c)
  {
  }
}
