/** The contact-form route (backend/src/routes/contactRoutes.js): a
    required-field check, an email format check by regular expression, and
    the append of the accepted message to the store. */
module ContactRoutes {
  import opened Common
  import JsText

  const AllFieldsRequired: string := "All fields are required."
  const InvalidEmail: string := "Invalid email format."
  const ThankYou: string := "Thank you for contacting us! We will get back to you soon."

  /** A character the class `[^\s@]` accepts. */
  predicate EmailChar(c: char)
  {
    !JsText.IsSpace(c) && c != '@'
  }

  /** Every character of `s[lo..hi]` is accepted by `[^\s@]`. */
  ghost predicate EmailCharsIn(s: string, lo: int, hi: int)
  {
    forall i :: lo <= i < hi && 0 <= i < |s| ==> EmailChar(s[i])
  }

  /** The pattern `^[^\s@]+@[^\s@]+\.[^\s@]+$` matched with its `@` at `at`
      and its escaped dot at `dot`. */
  ghost predicate MatchesAt(s: string, at: int, dot: int)
  {
    0 < at && at + 1 < dot && dot + 1 < |s| && s[at] == '@' && s[dot] == '.' &&
    EmailCharsIn(s, 0, at) && EmailCharsIn(s, at + 1, dot) && EmailCharsIn(s, dot + 1, |s|)
  }

  /** `emailRegex.test(s)`. */
  ghost predicate MatchesEmailPattern(s: string)
  {
    exists at, dot :: MatchesAt(s, at, dot)
  }

  /** Position of the first `c` in `s`, or -1. */
  function IndexOf(s: string, c: char): (r: int)
    ensures -1 <= r < |s|
    ensures r >= 0 ==> s[r] == c
    ensures forall i :: 0 <= i < |s| && (r == -1 || i < r) ==> s[i] != c
  {
    if s == [] then -1
    else if s[0] == c then 0
    else
      var r := IndexOf(s[1..], c);
      if r == -1 then -1 else r + 1
  }

  /** The email check, stated the way it reads: no white space anywhere,
      exactly one `@` with something before it, and after it a domain with
      a dot that has text on both sides. */
  predicate IsValidEmail(s: string)
  {
    var at := IndexOf(s, '@');
    (forall i :: 0 <= i < |s| ==> !JsText.IsSpace(s[i])) &&
    at > 0 &&
    (forall i :: at < i < |s| ==> s[i] != '@') &&
    (exists dot :: at + 1 < dot < |s| - 1 && s[dot] == '.')
  }

  /** The check accepts exactly the strings the regular expression matches. */
  lemma EmailCheckMatchesPattern(s: string)
    ensures IsValidEmail(s) <==> MatchesEmailPattern(s)
  {
    var at := IndexOf(s, '@');
    if IsValidEmail(s) {
      var dot :| at + 1 < dot < |s| - 1 && s[dot] == '.';
      assert MatchesAt(s, at, dot);
    }
    if MatchesEmailPattern(s) {
      var a, d :| MatchesAt(s, a, d);
      assert EmailCharsIn(s, 0, a);
      assert at == a;
      forall i | 0 <= i < |s| ensures !JsText.IsSpace(s[i]) {
        if i != a && i != d {
          assert EmailCharsIn(s, at + 1, d) && EmailCharsIn(s, d + 1, |s|);
        }
      }
      forall i | at < i < |s| ensures s[i] != '@' {
        if i != d {
          assert EmailCharsIn(s, at + 1, d) && EmailCharsIn(s, d + 1, |s|);
        }
      }
    }
  }

  /** An accepted address has exactly one `@`. */
  lemma ValidEmailHasOneAt(s: string)
    requires IsValidEmail(s)
    ensures exists at :: 0 < at < |s| && s[at] == '@' && forall i :: 0 <= i < |s| && s[i] == '@' ==> i == at
  {
    var at := IndexOf(s, '@');
    assert forall i :: 0 <= i < |s| && s[i] == '@' ==> i == at;
  }

  /** The JSON body of a submission; `None` is a missing or null field. */
  datatype ContactBody = ContactBody(name: Option<string>, email: Option<string>, message: Option<string>)

  /** A stored submission. */
  datatype ContactMessage = ContactMessage(name: string, email: string, message: string)

  predicate AllPresent(b: ContactBody)
  {
    Truthy(b.name) && Truthy(b.email) && Truthy(b.message)
  }

  /** The two checks in their order: presence first, then the email format.
      On success the result is the record to store. */
  function Check(b: ContactBody): (r: Reply<ContactMessage>)
    ensures !AllPresent(b) ==> r == Fail(400, AllFieldsRequired)
    ensures r == Fail(400, InvalidEmail) <==> AllPresent(b) && !MatchesEmailPattern(b.email.value)
    ensures r.Ok? <==> AllPresent(b) && MatchesEmailPattern(b.email.value)
    ensures r.Ok? ==> r == Ok(201, ContactMessage(b.name.value, b.email.value, b.message.value))
  {
    if !AllPresent(b) then Fail(400, AllFieldsRequired)
    else
      EmailCheckMatchesPattern(b.email.value);
      if !IsValidEmail(b.email.value) then Fail(400, InvalidEmail)
      else Ok(201, ContactMessage(b.name.value, b.email.value, b.message.value))
  }

  /** The store of contact submissions, in arrival order. */
  class ContactStore {
    var messages: seq<ContactMessage>

    constructor ()
      ensures messages == []
    {
      messages := [];
    }

    /** POST /. An accepted submission is appended and thanked; a refused
        one leaves the store as it was. */
    method Submit(b: ContactBody) returns (reply: Reply<string>)
      modifies this
      ensures Check(b).Fail? ==> reply == Fail(400, Check(b).message) && messages == old(messages)
      ensures Check(b).Ok? ==> reply == Ok(201, ThankYou) && messages == old(messages) + [Check(b).body]
    {
      var checked := Check(b);
      if checked.Fail? {
        return Fail(checked.status, checked.message);
      }
      messages := messages + [checked.body];
      reply := Ok(201, ThankYou);
    }
  }
}
