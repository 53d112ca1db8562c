/** The public contact form: controllers/contactController.js. The
    handler remembers, in process memory, when each email and phone pair
    last submitted, refuses a repeat within one minute, and otherwise mails
    the form to the site's receiver. The receiver address is `receiver` and
    the mail transport is `transport`. */
module Contact {
  import opened Js
  import opened Store

  /** One minute, in the milliseconds of `Date.now()`. */
  const WINDOW: int := 1 * 60 * 1000

  const SUBJECT := "New Form Information"
  const MSG_TOO_SOON := "This information has already been submitted. Please try again after 1 minute."
  const MSG_SENT := "Email senti"
  /** What the engine reports when `message.replace` is read on `undefined`. */
  const MSG_NO_MESSAGE := "Cannot read properties of undefined (reading 'replace')"

  datatype ContactForm = ContactForm(name: Field, surname: Field, email: Field, phoneNumber: Field, message: Field)

  /** `submittedForms`: the last accepted time of each key. */
  type Seen = map<string, Time>

  datatype Outcome = Outcome(http: Http, seen: Seen)

  /** The rate-limit key: the email, a dash, the phone number, each as a
      template literal prints it. */
  function Key(q: ContactForm): (k: string)
    ensures |k| == |Show(q.email)| + 1 + |Show(q.phoneNumber)|
    ensures k[|Show(q.email)|] == '-'
    ensures k[..|Show(q.email)|] == Show(q.email) && k[|Show(q.email)| + 1..] == Show(q.phoneNumber)
  {
    Show(q.email) + "-" + Show(q.phoneNumber)
  }

  /** The key was recorded (with a truthy time) less than a minute ago. */
  predicate Recent(seen: Seen, key: string, now: Time)
  {
    key in seen && seen[key] != 0 && now - seen[key] < WINDOW
  }

  /** sendEmail. A repeat within the window is refused with the map as it
      was; any other submission records its time first, so a failed
      attempt still blocks the next minute. */
  function SendEmail(seen: Seen, q: ContactForm, now: Time, receiver: string, transport: Mail -> bool): (r: Outcome)
    ensures r.http.code in {200, 429, 500}
    ensures r.http.code == 429 <==> Recent(seen, Key(q), now)
    ensures r.http.code == 429 ==> r.seen == seen
    ensures r.http.code != 429 ==> r.seen == seen[Key(q) := now]
    ensures r.http.code == 200 <==>
      !Recent(seen, Key(q), now) && q.message.Some? && transport(Mail(receiver, SUBJECT))
    ensures r.http.code == 500 && q.message.None? ==> r.http.message == MSG_NO_MESSAGE
  {
    var key := Key(q);
    if Recent(seen, key, now) then Outcome(Http(429, MSG_TOO_SOON), seen)
    else
      var seen' := seen[key := now];
      if q.message.None? then Outcome(Http(500, MSG_NO_MESSAGE), seen')
      else if !transport(Mail(receiver, SUBJECT)) then Outcome(Http(500, ""), seen')
      else Outcome(Http(200, MSG_SENT), seen')
  }

  // ----------------------------------------------------------------- lemmas

  /** Entries are never removed, and only the submitted key changes. */
  lemma SendEmailOnlyGrows(seen: Seen, q: ContactForm, now: Time, receiver: string, transport: Mail -> bool)
    ensures var r := SendEmail(seen, q, now, receiver, transport);
      && seen.Keys <= r.seen.Keys
      && forall k :: k in seen && k != Key(q) ==> r.seen[k] == seen[k]
  {
  }

  /** Once accepted, the same pair is refused for the rest of the minute
      (when the clock reading is truthy), whatever the outcome of the mail. */
  lemma RepeatWithinWindowRefused(seen: Seen, q: ContactForm, now: Time, later: Time,
                                  receiver: string, transport: Mail -> bool, q': ContactForm)
    requires SendEmail(seen, q, now, receiver, transport).http.code != 429
    requires now != 0 && Key(q') == Key(q) && now <= later < now + WINDOW
    ensures var s := SendEmail(seen, q, now, receiver, transport).seen;
      SendEmail(s, q', later, receiver, transport) == Outcome(Http(429, MSG_TOO_SOON), s)
  {
  }

  /** The comparison is strict: exactly one minute later is accepted. */
  lemma OneMinuteLaterAccepted(seen: Seen, q: ContactForm, now: Time, receiver: string, transport: Mail -> bool)
    requires Key(q) in seen && now == seen[Key(q)] + WINDOW
    ensures SendEmail(seen, q, now, receiver, transport).http.code != 429
  {
  }

  /** The key does not separate its parts: different pairs can share a
      key, and so share a rate limit. */
  lemma KeysCanCollide()
    ensures var a := ContactForm(None, None, Some("a-b"), Some("c"), None);
      var b := ContactForm(None, None, Some("a"), Some("b-c"), None);
      a.email != b.email && Key(a) == Key(b)
  {
    assert Key(ContactForm(None, None, Some("a-b"), Some("c"), None)) == "a-b-c";
    assert Key(ContactForm(None, None, Some("a"), Some("b-c"), None)) == "a-b-c";
  }

  /** The position of the first dash, or the length when there is none. */
  function FirstDash(s: string): (i: nat)
    ensures i <= |s| && (i < |s| ==> s[i] == '-')
    ensures forall j :: 0 <= j < i ==> s[j] != '-'
  {
    if s == [] || s[0] == '-' then 0 else 1 + FirstDash(s[1..])
  }

  lemma {:induction false} FirstDashAfter(e: string, rest: string)
    requires '-' !in e
    ensures FirstDash(e + "-" + rest) == |e|
    decreases |e|
  {
    if e != [] {
      assert e[0] in e;
      assert (e + "-" + rest)[1..] == e[1..] + "-" + rest;
      assert forall c :: c in e[1..] ==> c in e;
      FirstDashAfter(e[1..], rest);
    }
  }

  /** A pair splits back out of its key when the email holds no dash. */
  lemma KeyInjectiveWithoutDash(q1: ContactForm, q2: ContactForm)
    requires '-' !in Show(q1.email) && '-' !in Show(q2.email)
    requires Key(q1) == Key(q2)
    ensures Show(q1.email) == Show(q2.email) && Show(q1.phoneNumber) == Show(q2.phoneNumber)
  {
    FirstDashAfter(Show(q1.email), Show(q1.phoneNumber));
    FirstDashAfter(Show(q2.email), Show(q2.phoneNumber));
  }
}
