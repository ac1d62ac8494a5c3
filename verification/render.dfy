/** The text that the result panels show (`renderConsultResult`, js/app.js:146-155,
    and `renderDemoResult`, js/app.js:203-211): each shown value, in order, after
    label resolution and escaping. The fixed markup around the values is not part
    of the model. */
module Render {
  import opened Escape
  import opened Labels
  import opened Storage

  /** Labels hold no markup character, so escaping leaves them as they are. */
  lemma RoleLabelNeedsNoEscaping(code: string)
    ensures EscapeHtml(RoleLabel(code)) == RoleLabel(code)
  {
    var r := RoleLabel(code);
    assert forall i :: 0 <= i < |r| ==> !IsMarkupChar(r[i]);
    EscapeHtmlIdentity(r);
  }

  lemma StatusLabelNeedsNoEscaping(code: string)
    ensures EscapeHtml(StatusLabel(code)) == StatusLabel(code)
  {
    StatusAgreesWithRole(code);
    RoleLabelNeedsNoEscaping(code);
  }

  lemma ChannelLabelNeedsNoEscaping(code: string)
    ensures EscapeHtml(ChannelLabel(code)) == ChannelLabel(code)
  {
    var c := ChannelLabel(code);
    assert forall i :: 0 <= i < |c| ==> !IsMarkupChar(c[i]);
    EscapeHtmlIdentity(c);
  }

  /** Each value through `escapeHtml`: every result is inert markup that
      decodes back to the value it came from. */
  function EscapeAll(values: seq<string>): (shown: seq<string>)
    ensures |shown| == |values|
    ensures forall i :: 0 <= i < |shown| ==> IsSafeMarkup(shown[i]) && Unescape(shown[i]) == values[i]
    ensures forall i :: 0 <= i < |shown| ==> shown[i] == EscapeHtml(values[i])
  {
    if |values| == 0 then []
    else
      EscapeHtmlSafe(values[0]);
      UnescapeEscapeHtml(values[0]);
      [EscapeHtml(values[0])] + EscapeAll(values[1..])
  }

  /** Role, channel, contact, time and comment as the consultation panel shows
      them: every value is inert markup, the labels appear as resolved, and the
      user's text is recoverable exactly. */
  function RenderConsultResult(p: ConsultRequest): (shown: seq<string>)
    ensures |shown| == 5
    ensures forall i :: 0 <= i < |shown| ==> IsSafeMarkup(shown[i])
    ensures shown[0] == RoleLabel(p.role) && shown[1] == ChannelLabel(p.channel)
    ensures Unescape(shown[2]) == p.contact
    ensures Unescape(shown[3]) == p.time
    ensures Unescape(shown[4]) == p.comment
  {
    RoleLabelNeedsNoEscaping(p.role);
    ChannelLabelNeedsNoEscaping(p.channel);
    EscapeAll([RoleLabel(p.role), ChannelLabel(p.channel), p.contact, p.time, p.comment])
  }

  /** Name, email, status and message as the demo panel shows them. */
  function RenderDemoResult(p: DemoRequest): (shown: seq<string>)
    ensures |shown| == 4
    ensures forall i :: 0 <= i < |shown| ==> IsSafeMarkup(shown[i])
    ensures shown[2] == StatusLabel(p.status)
    ensures Unescape(shown[0]) == p.name
    ensures Unescape(shown[1]) == p.email
    ensures Unescape(shown[3]) == p.message
  {
    StatusLabelNeedsNoEscaping(p.status);
    EscapeAll([p.name, p.email, StatusLabel(p.status), p.message])
  }

  /** For example, a student booking over Telegram shows
      "Студент" and "Telegram". */
  lemma ConsultExampleShown(p: ConsultRequest)
    requires p.role == "student" && p.channel == "telegram"
    ensures RenderConsultResult(p)[0] == "Студент"
    ensures RenderConsultResult(p)[1] == "Telegram"
  {
    assert p.role == RoleCode(Student);
    assert p.channel == ChannelCode(Telegram);
  }
}
