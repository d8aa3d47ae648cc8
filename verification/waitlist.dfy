/** The waitlist sign-up route: POST with a JSON body carrying an email address. The route
    checks the address against a pattern, looks it up in the waitlist table, inserts it
    when it is new and mails a thank-you note, answering 400, 409, 201 or 500. */
module Waitlist {

  // ---------------------------------------------------------------------------
  // The email pattern ^[^\s@]+@[^\s@]+\.[^\s@]+$
  // ---------------------------------------------------------------------------

  /** The characters JavaScript's `\s` class matches: the ASCII blanks, the no-break space,
      the Unicode space separators, the line and paragraph separators and the byte-order
      mark. */
  predicate IsJsWhitespace(c: char) {
    || c == '\t' || c == '\n' || c == '\U{000B}' || c == '\U{000C}' || c == '\r' || c == ' '
    || c == '\U{00A0}' || c == '\U{1680}' || ('\U{2000}' <= c <= '\U{200A}')
    || c == '\U{2028}' || c == '\U{2029}' || c == '\U{202F}' || c == '\U{205F}'
    || c == '\U{3000}' || c == '\U{FEFF}'
  }

  /** The class `[^\s@]`. */
  predicate IsPartChar(c: char) {
    !IsJsWhitespace(c) && c != '@'
  }

  predicate AllPartChars(s: string) {
    forall i :: 0 <= i < |s| ==> IsPartChar(s[i])
  }

  /** What the pattern accepts, read off the pattern itself: a non-empty run of part
      characters, an '@', a non-empty run, a '.', and a non-empty run to the end. The
      middle run may itself hold dots; the pattern only needs one dot with a part
      character on each side of it. */
  ghost predicate MatchesEmailPattern(s: string) {
    exists at, dot ::
      && 0 < at && at + 1 < dot && dot + 1 < |s|
      && s[at] == '@' && s[dot] == '.'
      && AllPartChars(s[..at]) && AllPartChars(s[at + 1..dot]) && AllPartChars(s[dot + 1..])
  }

  predicate NoWhitespace(s: string) {
    forall i :: 0 <= i < |s| ==> !IsJsWhitespace(s[i])
  }

  /** The position of the first c in s. */
  function IndexOf(s: string, c: char): (k: nat)
    requires c in s
    ensures k < |s| && s[k] == c && c !in s[..k]
  {
    if s[0] == c then 0
    else
      assert c in s[1..] by {
        var i :| 0 <= i < |s| && s[i] == c;
        assert s[1..][i - 1] == c;
      }
      var k := 1 + IndexOf(s[1..], c);
      assert s[..k] == [s[0]] + s[1..][..k - 1];
      k
  }

  /** The same acceptance as a scan: no whitespace, one '@' that is not first, and in
      the domain after it a '.' that is neither the domain's first nor its last character. */
  predicate IsEmailFormat(s: string) {
    && NoWhitespace(s)
    && '@' in s
    && var at := IndexOf(s, '@');
       && 0 < at && at + 3 <= |s|
       && '@' !in s[at + 1..]
       && '.' in s[at + 2..|s| - 1]
  }

  lemma PartCharsOfSlice(s: string, lo: int, hi: int)
    requires 0 <= lo <= hi <= |s|
    ensures AllPartChars(s[lo..hi]) <==> forall i :: lo <= i < hi ==> IsPartChar(s[i])
  {
    if forall i :: lo <= i < hi ==> IsPartChar(s[i]) {
      forall k | 0 <= k < hi - lo ensures IsPartChar(s[lo..hi][k]) {
        assert s[lo..hi][k] == s[lo + k];
      }
    }
    if AllPartChars(s[lo..hi]) {
      forall i | lo <= i < hi ensures IsPartChar(s[i]) {
        assert s[i] == s[lo..hi][i - lo];
      }
    }
  }

  lemma CharNotInSlice(s: string, lo: int, hi: int, c: char)
    requires 0 <= lo <= hi <= |s|
    ensures c !in s[lo..hi] <==> forall i :: lo <= i < hi ==> s[i] != c
  {
    if c in s[lo..hi] {
      var k :| 0 <= k < hi - lo && s[lo..hi][k] == c;
      assert s[lo + k] == c;
    }
    if exists i :: lo <= i < hi && s[i] == c {
      var i :| lo <= i < hi && s[i] == c;
      assert s[lo..hi][i - lo] == c;
    }
  }

  lemma FormatImpliesPattern(s: string)
    requires IsEmailFormat(s)
    ensures MatchesEmailPattern(s)
  {
    var at := IndexOf(s, '@');
    var inner := s[at + 2..|s| - 1];
    var d := IndexOf(inner, '.');
    var dot := at + 2 + d;
    assert s[dot] == inner[d];
    CharNotInSlice(s, 0, at, '@');
    CharNotInSlice(s, at + 1, |s|, '@');
    assert s[..at] == s[0..at];
    assert forall i :: 0 <= i < |s| && i != at ==> IsPartChar(s[i]);
    PartCharsOfSlice(s, 0, at);
    PartCharsOfSlice(s, at + 1, dot);
    PartCharsOfSlice(s, dot + 1, |s|);
    assert s[dot + 1..] == s[dot + 1..|s|];
  }

  /** A string whose characters other than one '@' at `at` are all part characters, with
      a '.' at `dot` strictly inside the domain, passes the scan. */
  lemma FormatFromPartChars(s: string, at: int, dot: int)
    requires 0 < at && at + 2 <= dot && dot + 2 <= |s|
    requires s[at] == '@' && s[dot] == '.'
    requires forall i :: 0 <= i < |s| && i != at ==> IsPartChar(s[i])
    ensures IsEmailFormat(s)
  {
    forall i | 0 <= i < |s| ensures !IsJsWhitespace(s[i]) {
      if i != at {
        assert IsPartChar(s[i]);
      }
    }
    CharNotInSlice(s, 0, at, '@');
    CharNotInSlice(s, at + 1, |s|, '@');
    assert IndexOf(s, '@') == at;
    assert s[at + 1..] == s[at + 1..|s|];
    assert s[at + 2..|s| - 1][dot - at - 2] == '.';
  }

  lemma PatternImpliesFormat(s: string)
    requires MatchesEmailPattern(s)
    ensures IsEmailFormat(s)
  {
    var at, dot :| && 0 < at && at + 1 < dot && dot + 1 < |s|
                   && s[at] == '@' && s[dot] == '.'
                   && AllPartChars(s[..at]) && AllPartChars(s[at + 1..dot]) && AllPartChars(s[dot + 1..]);
    assert s[..at] == s[0..at];
    assert s[dot + 1..] == s[dot + 1..|s|];
    PartCharsOfSlice(s, 0, at);
    PartCharsOfSlice(s, at + 1, dot);
    PartCharsOfSlice(s, dot + 1, |s|);
    forall i | 0 <= i < |s| && i != at ensures IsPartChar(s[i]) {
      if i == dot {
        assert IsPartChar('.');
      } else if i < at {
      } else if i < dot {
      }
    }
    FormatFromPartChars(s, at, dot);
  }

  /** The scan and the pattern accept the same strings. */
  lemma EmailFormatMatchesPattern(s: string)
    ensures IsEmailFormat(s) <==> MatchesEmailPattern(s)
  {
    if IsEmailFormat(s) {
      FormatImpliesPattern(s);
    }
    if MatchesEmailPattern(s) {
      PatternImpliesFormat(s);
    }
  }

  // ---------------------------------------------------------------------------
  // Requests and responses
  // ---------------------------------------------------------------------------

  /** The `email` property of a parsed JSON body.
      - Absent: the body has no such property (or is not an object);
      - Text: a JSON string;
      - NonText: any other JSON value, with its JavaScript truthiness and the string the
        pattern test coerces it to (an array of one string coerces to that string). */
  datatype EmailField = Absent | Text(s: string) | NonText(truthy: bool, coerced: string)

  /** A request body: not JSON at all, the JSON literal null, or any other JSON value. */
  datatype RequestBody = Unparseable | NullBody | Parsed(email: EmailField)

  /** The route's four answers. */
  datatype Response = InvalidEmail | AlreadyListed | Subscribed | ServerError

  /** The HTTP status the route answers with. */
  function Status(r: Response): int {
    match r
    case InvalidEmail => 400
    case AlreadyListed => 409
    case Subscribed => 201
    case ServerError => 500
  }

  /** Which external calls fail on this request: the table lookup, the insert, the mail. */
  datatype Faults = Faults(lookupFails: bool, insertFails: bool, sendFails: bool)

  const NoFaults := Faults(false, false, false)

  /** The calls the route makes on the outside world, in order. */
  datatype Effect = FindUnique(email: string) | Create(email: string) | SendMail(to: string)

  /** The `!email || !emailRegex.test(email)` guard: true when the route answers 400. */
  predicate Rejected(f: EmailField) {
    match f
    case Absent => true
    case Text(s) => s == "" || !IsEmailFormat(s)
    case NonText(truthy, coerced) => !truthy || !IsEmailFormat(coerced)
  }

  /** The result of one POST: the answer, the table's emails afterwards, and the calls made. */
  datatype Outcome = Outcome(response: Response, entries: set<string>, effects: seq<Effect>)

  /** The POST handler's decision sequence. A body that is not JSON, or is null, throws
      inside the try block and gets 500. A non-string email that passes the pattern test
      is refused by the database client before any query, which also throws. */
  function Handle(entries: set<string>, body: RequestBody, faults: Faults): Outcome {
    match body
    case Unparseable => Outcome(ServerError, entries, [])
    case NullBody => Outcome(ServerError, entries, [])
    case Parsed(f) =>
      if Rejected(f) then Outcome(InvalidEmail, entries, [])
      else if !f.Text? then Outcome(ServerError, entries, [])
      else
        var e := f.s;
        if faults.lookupFails then Outcome(ServerError, entries, [FindUnique(e)])
        else if e in entries then Outcome(AlreadyListed, entries, [FindUnique(e)])
        else if faults.insertFails then Outcome(ServerError, entries, [FindUnique(e), Create(e)])
        else if faults.sendFails then Outcome(ServerError, entries + {e}, [FindUnique(e), Create(e), SendMail(e)])
        else Outcome(Subscribed, entries + {e}, [FindUnique(e), Create(e), SendMail(e)])
  }

  // ---------------------------------------------------------------------------
  // Properties of the decision sequence
  // ---------------------------------------------------------------------------

  /** 400 is the answer exactly when the email is missing, empty or does not match the
      pattern, and then the table is neither read nor written. */
  lemma InvalidEmailTouchesNothing(entries: set<string>, f: EmailField, faults: Faults)
    ensures Handle(entries, Parsed(f), faults).response == InvalidEmail <==>
              f.Absent? || (f.Text? && (f.s == "" || !MatchesEmailPattern(f.s)))
              || (f.NonText? && (!f.truthy || !MatchesEmailPattern(f.coerced)))
    ensures Handle(entries, Parsed(f), faults).response == InvalidEmail ==>
              Handle(entries, Parsed(f), faults).entries == entries && Handle(entries, Parsed(f), faults).effects == []
  {
    match f
    case Absent =>
    case Text(s) => EmailFormatMatchesPattern(s);
    case NonText(_, c) => EmailFormatMatchesPattern(c);
  }

  /** A listed email gets 409: one lookup, no insert, no mail, the table unchanged. */
  lemma ListedEmailConflicts(entries: set<string>, e: string, faults: Faults)
    requires MatchesEmailPattern(e) && e in entries && !faults.lookupFails
    ensures Handle(entries, Parsed(Text(e)), faults) == Outcome(AlreadyListed, entries, [FindUnique(e)])
  {
    EmailFormatMatchesPattern(e);
  }

  /** A new valid email with every call succeeding gets 201 and adds exactly one entry. */
  lemma NewEmailSubscribes(entries: set<string>, e: string)
    requires MatchesEmailPattern(e) && e !in entries
    ensures Handle(entries, Parsed(Text(e)), NoFaults).response == Subscribed
    ensures Handle(entries, Parsed(Text(e)), NoFaults).entries == entries + {e}
    ensures |Handle(entries, Parsed(Text(e)), NoFaults).entries| == |entries| + 1
    ensures Handle(entries, Parsed(Text(e)), NoFaults).effects == [FindUnique(e), Create(e), SendMail(e)]
  {
    EmailFormatMatchesPattern(e);
  }

  /** A failed mail after a successful insert answers 500 and keeps the new entry: the
      insert is not rolled back. */
  lemma MailFailureKeepsEntry(entries: set<string>, e: string)
    requires MatchesEmailPattern(e) && e !in entries
    ensures Handle(entries, Parsed(Text(e)), Faults(false, false, true))
              == Outcome(ServerError, entries + {e}, [FindUnique(e), Create(e), SendMail(e)])
  {
    EmailFormatMatchesPattern(e);
  }

  /** The same valid email submitted twice in a row gets 201 and then 409, and the second
      submission leaves the table's size as the first left it. */
  lemma SubmitTwice(entries: set<string>, e: string)
    requires MatchesEmailPattern(e) && e !in entries
    ensures var first := Handle(entries, Parsed(Text(e)), NoFaults);
            var second := Handle(first.entries, Parsed(Text(e)), NoFaults);
            && first.response == Subscribed && second.response == AlreadyListed
            && |second.entries| == |first.entries| == |entries| + 1
  {
    NewEmailSubscribes(entries, e);
    ListedEmailConflicts(entries + {e}, e, NoFaults);
  }

  /** The fixed precedence of the status codes: 400 for a rejected email in a parsed body;
      409 for a listed email whose lookup succeeded; 201 for a new email when the lookup,
      the insert and the mail all succeed; 500 in every other case. */
  lemma StatusPrecedence(entries: set<string>, body: RequestBody, faults: Faults)
    ensures var code := Status(Handle(entries, body, faults).response);
            && (code == 400 <==> body.Parsed? && Rejected(body.email))
            && (code == 409 <==> body.Parsed? && !Rejected(body.email) && body.email.Text?
                                 && !faults.lookupFails && body.email.s in entries)
            && (code == 201 <==> body.Parsed? && !Rejected(body.email) && body.email.Text?
                                 && body.email.s !in entries && faults == NoFaults)
            && (code == 500 <==> !(code == 400 || code == 409 || code == 201))
  {
  }

  /** Whatever happens, the table only grows, and by at most the one submitted email;
      it grows exactly when the insert call was made and succeeded. */
  lemma TableOnlyGrows(entries: set<string>, body: RequestBody, faults: Faults)
    ensures entries <= Handle(entries, body, faults).entries
    ensures |Handle(entries, body, faults).entries| <= |entries| + 1
    ensures Handle(entries, body, faults).entries != entries ==>
              body.Parsed? && body.email.Text? && Create(body.email.s) in Handle(entries, body, faults).effects
              && Handle(entries, body, faults).entries == entries + {body.email.s}
  {
  }

  // ---------------------------------------------------------------------------
  // The waitlist table
  // ---------------------------------------------------------------------------

  /** The waitlist table, with a unique email column, and the calls made on it and on the
      mail transport so far. */
  class Store {
    var entries: set<string>
    ghost var calls: seq<Effect>

    constructor ()
      ensures entries == {} && calls == []
    {
      entries := {};
      calls := [];
    }

    /** POST /api/waitlists. faults says which of the table and mail calls fail. */
    method Post(body: RequestBody, faults: Faults) returns (response: Response)
      modifies this
      ensures var o := Handle(old(entries), body, faults);
              response == o.response && entries == o.entries && calls == old(calls) + o.effects
    {
      if body.Unparseable? || body.NullBody? {
        return ServerError;
      }
      var f := body.email;
      if Rejected(f) {
        return InvalidEmail;
      }
      if !f.Text? {
        return ServerError;
      }
      var email := f.s;
      calls := calls + [FindUnique(email)];
      if faults.lookupFails {
        return ServerError;
      }
      if email in entries {
        return AlreadyListed;
      }
      calls := calls + [Create(email)];
      if faults.insertFails {
        return ServerError;
      }
      entries := entries + {email};
      calls := calls + [SendMail(email)];
      if faults.sendFails {
        return ServerError;
      }
      return Subscribed;
    }
  }
}
