/** The subject chosen from the find-alts form: a typed user id or a single mentioned user. */
module Modal {
  import opened Wrappers

  datatype Selection =
    | MultipleMentions
    | ConflictingInputs
    | Subject(userId: Option<string>)

  /** At most one mention may be given, and not together with a typed id; a mention wins over
      an absent or empty typed id. */
  function SelectSubject(userInput: Option<string>, mentions: seq<string>): (r: Selection)
    ensures r == MultipleMentions <==> |mentions| > 1
    ensures r == ConflictingInputs <==> |mentions| == 1 && Present(userInput)
    ensures r.Subject? && |mentions| == 1 ==> r.userId == Some(mentions[0])
    ensures r.Subject? && |mentions| == 0 ==> r.userId == userInput
  {
    if |mentions| > 1 then MultipleMentions
    else if Present(userInput) && |mentions| > 0 then ConflictingInputs
    else if |mentions| > 0 then Subject(Some(mentions[0]))
    else Subject(userInput)
  }
}
