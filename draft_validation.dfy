/** The draft register and login validators, which collect an ordered list of messages (at most
    one per field) and pass control on only when the list is empty. Their emptiness test is
    JavaScript's `!v || v.trim().length === 0`: falsy values count as empty without being trimmed,
    and a truthy value that is not a string makes `.trim()` throw. */
module DraftValidation {
  import opened Wrappers
  import opened Json
  import opened Http
  import Text

  const UsernameEmpty: string := "Username is empty"
  const UsernameShort: string := "Username must be at least 3 characters"
  const PasswordEmpty: string := "Password is empty"
  const PasswordShort: string := "Password must be at least 6 characters long"
  const EmailEmpty: string := "Email is empty"
  const EmailInvalid: string := "Email is invalid"

  /** How a value fares under the emptiness test. */
  datatype Presence = Absent | NotText | Present(raw: string, trimmed: string)

  function PresenceOf(v: Option<Value>): (p: Presence)
    ensures p.Absent? <==> v.None? || !Truthy(v.value) || (v.value.Str? && Text.IsBlank(v.value.s))
    ensures p.NotText? <==> v.Some? && Truthy(v.value) && !v.value.Str?
    ensures p.Present? ==> v == Some(Str(p.raw)) && p.trimmed == Text.Trim(p.raw) && p.trimmed != ""
  {
    if v.None? || !Truthy(v.value) then Absent
    else if !v.value.Str? then NotText
    else
      Text.TrimSpec(v.value.s);
      var t := Text.Trim(v.value.s);
      if t == "" then Absent else Present(v.value.s, t)
  }

  /** The verdict on one field: fine, one message, or a thrown `TypeError`. */
  datatype Check = Fine | Report(message: string) | Throws

  /** The username and password checks: empty, else shorter after trimming than the minimum
      number of UTF-16 code units (JavaScript's `length`). */
  function LengthCheck(v: Option<Value>, empty: string, short: string, min: nat): (c: Check)
    ensures c == Throws <==> PresenceOf(v).NotText?
    ensures PresenceOf(v).Absent? ==> c == Report(empty)
    ensures PresenceOf(v).Present? ==>
      c == if Text.Utf16Length(PresenceOf(v).trimmed) < min then Report(short) else Fine
  {
    match PresenceOf(v)
    case Absent => Report(empty)
    case NotText => Throws
    case Present(_, t) => if Text.Utf16Length(t) < min then Report(short) else Fine
  }

  /** The email check: empty, else invalid without an '@' (in the untrimmed text). */
  function EmailCheck(v: Option<Value>): (c: Check)
    ensures c == Throws <==> PresenceOf(v).NotText?
    ensures PresenceOf(v).Absent? ==> c == Report(EmailEmpty)
    ensures PresenceOf(v).Present? ==>
      c == if Text.Includes(PresenceOf(v).raw, "@") then Fine else Report(EmailInvalid)
  {
    match PresenceOf(v)
    case Absent => Report(EmailEmpty)
    case NotText => Throws
    case Present(raw, _) => if !Text.Includes(raw, "@") then Report(EmailInvalid) else Fine
  }

  /** The login checks: empty only. */
  function PresentCheck(v: Option<Value>, empty: string): (c: Check)
    ensures c == Throws <==> PresenceOf(v).NotText?
    ensures c == Report(empty) <==> PresenceOf(v).Absent?
    ensures c == Fine <==> PresenceOf(v).Present?
  {
    match PresenceOf(v)
    case Absent => Report(empty)
    case NotText => Throws
    case Present(_, _) => Fine
  }

  /** The messages of the reporting checks, in check order (see `ReportedSpec`). */
  function Reported(checks: seq<Check>): seq<string> {
    if checks == [] then []
    else (if checks[0].Report? then [checks[0].message] else []) + Reported(checks[1..])
  }

  /** At most one message per check; none exactly when no check reports; and the messages are
      exactly those of the reporting checks. */
  lemma {:induction false} ReportedSpec(checks: seq<Check>)
    ensures |Reported(checks)| <= |checks|
    ensures Reported(checks) == [] <==> forall i :: 0 <= i < |checks| ==> !checks[i].Report?
    ensures forall m :: m in Reported(checks) <==> Report(m) in checks
  {
    if checks != [] {
      var rest := checks[1..];
      ReportedSpec(rest);
      assert checks == [checks[0]] + rest;
      assert forall i :: 1 <= i < |checks| ==> checks[i] == rest[i - 1];
      assert forall c :: c in checks <==> c == checks[0] || c in rest;
    }
  }

  /** The draft register checks, in their order: username, password, email. */
  function RegisterChecks(body: Object<Value>): seq<Check> {
    [LengthCheck(Get(body, "username"), UsernameEmpty, UsernameShort, 3),
     LengthCheck(Get(body, "password"), PasswordEmpty, PasswordShort, 6),
     EmailCheck(Get(body, "email"))]
  }

  /** The draft login checks, in their order: password, then email. */
  function LoginChecks(body: Object<Value>): seq<Check> {
    [PresentCheck(Get(body, "password"), PasswordEmpty), PresentCheck(Get(body, "email"), EmailEmpty)]
  }

  /** The value is a text whose trimmed form is non-empty and at least `min` code units long. */
  predicate LongEnough(v: Option<Value>, min: nat) {
    PresenceOf(v).Present? && Text.Utf16Length(PresenceOf(v).trimmed) >= min
  }

  /** The register checks throw iff one of the three values cannot be trimmed, and all pass iff
      the username and password are long enough and the email holds an '@'. */
  lemma RegisterChecksSpec(body: Object<Value>)
    ensures |RegisterChecks(body)| == 3
    ensures Throws in RegisterChecks(body) <==>
      PresenceOf(Get(body, "username")).NotText? || PresenceOf(Get(body, "password")).NotText? ||
      PresenceOf(Get(body, "email")).NotText?
    ensures (forall c :: c in RegisterChecks(body) ==> c == Fine) <==>
      && LongEnough(Get(body, "username"), 3) && LongEnough(Get(body, "password"), 6)
      && PresenceOf(Get(body, "email")).Present? && Text.Includes(PresenceOf(Get(body, "email")).raw, "@")
  {
    var cs := RegisterChecks(body);
    AllFineOfThree(cs);
    assert cs[0] == Fine <==> LongEnough(Get(body, "username"), 3);
    assert cs[1] == Fine <==> LongEnough(Get(body, "password"), 6);
  }

  /** Three checks, taken one by one. */
  lemma AllFineOfThree(cs: seq<Check>)
    requires |cs| == 3
    ensures Throws in cs <==> cs[0] == Throws || cs[1] == Throws || cs[2] == Throws
    ensures (forall c :: c in cs ==> c == Fine) <==> cs[0] == Fine && cs[1] == Fine && cs[2] == Fine
  {
    assert cs == [cs[0], cs[1], cs[2]];
    assert cs[0] in cs && cs[1] in cs && cs[2] in cs;
  }

  /** Two checks, taken one by one. */
  lemma AllFineOfTwo(cs: seq<Check>)
    requires |cs| == 2
    ensures Throws in cs <==> cs[0] == Throws || cs[1] == Throws
    ensures (forall c :: c in cs ==> c == Fine) <==> cs[0] == Fine && cs[1] == Fine
  {
    assert cs == [cs[0], cs[1]];
    assert cs[0] in cs && cs[1] in cs;
  }

  /** The login checks throw iff one of the two values cannot be trimmed, and both pass iff the
      password and the email are present. */
  lemma LoginChecksSpec(body: Object<Value>)
    ensures |LoginChecks(body)| == 2
    ensures Throws in LoginChecks(body) <==>
      PresenceOf(Get(body, "password")).NotText? || PresenceOf(Get(body, "email")).NotText?
    ensures (forall c :: c in LoginChecks(body) ==> c == Fine) <==>
      PresenceOf(Get(body, "password")).Present? && PresenceOf(Get(body, "email")).Present?
  {
    var cs := LoginChecks(body);
    AllFineOfTwo(cs);
  }

  /** Runs checks in order, pushing each message: a throwing check ends the run with a
      `TypeError`; otherwise the collected list decides. */
  method Collect(checks: seq<Check>) returns (out: Outcome<()>)
    ensures out.TypeError? <==> Throws in checks
    ensures out.Next? <==> forall c :: c in checks ==> c == Fine
    ensures out.Respond? ==> out.response == Response(400, ErrorList(Reported(checks)))
  {
    var errors: seq<string> := [];
    for i := 0 to |checks|
      invariant Throws !in checks[..i]
      invariant errors == Reported(checks[..i])
    {
      ReportedAppend(checks[..i], checks[i]);
      assert checks[..i + 1] == checks[..i] + [checks[i]];
      match checks[i]
      case Throws => return TypeError;
      case Report(message) => errors := errors + [message];
      case Fine =>
    }
    assert checks[..|checks|] == checks;
    ReportedSpec(checks);
    if |errors| > 0 {
      return Respond(Response(400, ErrorList(errors)));
    }
    return Next(());
  }

  /** One more check adds its message, if it has one, at the end. */
  lemma {:induction false} ReportedAppend(checks: seq<Check>, c: Check)
    ensures Reported(checks + [c]) == Reported(checks) + (if c.Report? then [c.message] else [])
  {
    if checks != [] {
      ReportedAppend(checks[1..], c);
      assert (checks + [c])[1..] == checks[1..] + [c];
    }
  }

  /** Draft `validateRegister`. */
  method ValidateRegister(body: Object<Value>) returns (out: Outcome<()>)
    ensures out.TypeError? <==> Throws in RegisterChecks(body)
    ensures out.Next? <==> forall c :: c in RegisterChecks(body) ==> c == Fine
    ensures out.Respond? ==> out.response == Response(400, ErrorList(Reported(RegisterChecks(body))))
  {
    out := Collect(RegisterChecks(body));
  }

  /** Draft `validateLogin`. */
  method ValidateLogin(body: Object<Value>) returns (out: Outcome<()>)
    ensures out.TypeError? <==> Throws in LoginChecks(body)
    ensures out.Next? <==> forall c :: c in LoginChecks(body) ==> c == Fine
    ensures out.Respond? ==> out.response == Response(400, ErrorList(Reported(LoginChecks(body))))
  {
    out := Collect(LoginChecks(body));
  }

  /** A text with no white space at either end is present as it is. */
  lemma PresentText(s: string)
    requires s != "" && !Text.IsSpace(s[0]) && !Text.IsSpace(s[|s| - 1])
    ensures PresenceOf(Some(Str(s))) == Present(s, s)
  {
    assert Text.TrimStart(s) == s;
    assert Text.TrimEnd(s) == s;
  }

  /** A length check of a text with no white space at either end compares its own length. */
  lemma LengthOfPresent(s: string, empty: string, short: string, min: nat)
    requires s != "" && !Text.IsSpace(s[0]) && !Text.IsSpace(s[|s| - 1])
    ensures LengthCheck(Some(Str(s)), empty, short, min) ==
      if Text.Utf16Length(s) < min then Report(short) else Fine
  {
    PresentText(s);
  }

  /** An email with no white space at either end and an '@' passes. */
  lemma EmailOfPresent(s: string, at: nat)
    requires s != "" && !Text.IsSpace(s[0]) && !Text.IsSpace(s[|s| - 1])
    requires Text.InfixAt(s, "@", at)
    ensures EmailCheck(Some(Str(s))) == Fine
  {
    PresentText(s);
  }

  /** With a username and a password given as texts with no white space at either end, and an
      email holding an '@', only the length checks can report. */
  lemma RegisterChecksOfTexts(body: Object<Value>, username: string, password: string, email: string, at: nat)
    requires Get(body, "username") == Some(Str(username))
    requires Get(body, "password") == Some(Str(password))
    requires Get(body, "email") == Some(Str(email))
    requires username != "" && !Text.IsSpace(username[0]) && !Text.IsSpace(username[|username| - 1])
    requires password != "" && !Text.IsSpace(password[0]) && !Text.IsSpace(password[|password| - 1])
    requires email != "" && !Text.IsSpace(email[0]) && !Text.IsSpace(email[|email| - 1])
    requires Text.InfixAt(email, "@", at)
    requires Text.InPlane0(username) && Text.InPlane0(password)
    ensures RegisterChecks(body) ==
      [if |username| < 3 then Report(UsernameShort) else Fine,
       if |password| < 6 then Report(PasswordShort) else Fine,
       Fine]
  {
    Text.Utf16LengthBmp(username);
    Text.Utf16LengthBmp(password);
    LengthOfPresent(username, UsernameEmpty, UsernameShort, 3);
    LengthOfPresent(password, PasswordEmpty, PasswordShort, 6);
    EmailOfPresent(email, at);
  }

  /** Without a username, and with a password and an email as above, the username check alone
      reports. */
  lemma RegisterChecksWithoutUsername(body: Object<Value>, password: string, email: string, at: nat)
    requires Get(body, "username") == None
    requires Get(body, "password") == Some(Str(password))
    requires Get(body, "email") == Some(Str(email))
    requires password != "" && !Text.IsSpace(password[0]) && !Text.IsSpace(password[|password| - 1])
    requires email != "" && !Text.IsSpace(email[0]) && !Text.IsSpace(email[|email| - 1])
    requires Text.InfixAt(email, "@", at)
    requires Text.InPlane0(password) && |password| >= 6
    ensures RegisterChecks(body) == [Report(UsernameEmpty), Fine, Fine]
  {
    Text.Utf16LengthBmp(password);
    LengthOfPresent(password, PasswordEmpty, PasswordShort, 6);
    EmailOfPresent(email, at);
  }

  /** The checks of a registration that leaves out the username. */
  lemma MissingUsernameChecks(body: Object<Value>)
    requires body == [("email", Str("test@example.com")), ("password", Str("123456"))]
    ensures RegisterChecks(body) == [Report(UsernameEmpty), Fine, Fine]
  {
    MissingUsernameLookups(body);
    MissingUsernameTexts();
    RegisterChecksWithoutUsername(body, "123456", "test@example.com", 4);
  }

  lemma MissingUsernameTexts()
    ensures Text.InPlane0("123456") && |"123456"| >= 6
    ensures !Text.IsSpace("123456"[0]) && !Text.IsSpace("123456"[5])
    ensures !Text.IsSpace("test@example.com"[0]) && !Text.IsSpace("test@example.com"[15])
    ensures Text.InfixAt("test@example.com", "@", 4)
  {
  }

  lemma MissingUsernameLookups(body: Object<Value>)
    requires body == [("email", Str("test@example.com")), ("password", Str("123456"))]
    ensures Get(body, "username") == None
    ensures Get(body, "password") == Some(Str("123456"))
    ensures Get(body, "email") == Some(Str("test@example.com"))
  {
  }

  /** A registration without a username reports only that the username is empty. */
  lemma MissingUsername()
    ensures Reported(RegisterChecks([("email", Str("test@example.com")), ("password", Str("123456"))])) ==
      [UsernameEmpty]
  {
    MissingUsernameChecks([("email", Str("test@example.com")), ("password", Str("123456"))]);
    assert Reported([Fine]) == [] by { assert [Fine][1..] == []; }
    assert Reported([Fine, Fine]) == [] by { assert [Fine, Fine][1..] == [Fine]; }
    assert [Report(UsernameEmpty), Fine, Fine][1..] == [Fine, Fine];
  }

  /** The checks of a registration whose password has five characters. */
  lemma ShortPasswordChecks(body: Object<Value>)
    requires body == [("username", Str("ada")), ("email", Str("ada@example.com")), ("password", Str("13456"))]
    ensures RegisterChecks(body) == [Fine, Report(PasswordShort), Fine]
  {
    ShortPasswordLookups(body);
    ShortPasswordTexts();
    RegisterChecksOfTexts(body, "ada", "13456", "ada@example.com", 3);
  }

  lemma ShortPasswordTexts()
    ensures Text.InPlane0("ada") && Text.InPlane0("13456")
    ensures !Text.IsSpace("ada"[0]) && !Text.IsSpace("ada"[2])
    ensures !Text.IsSpace("13456"[0]) && !Text.IsSpace("13456"[4])
    ensures !Text.IsSpace("ada@example.com"[0]) && !Text.IsSpace("ada@example.com"[14])
    ensures Text.InfixAt("ada@example.com", "@", 3)
  {
  }

  lemma ShortPasswordLookups(body: Object<Value>)
    requires body == [("username", Str("ada")), ("email", Str("ada@example.com")), ("password", Str("13456"))]
    ensures Get(body, "username") == Some(Str("ada"))
    ensures Get(body, "password") == Some(Str("13456"))
    ensures Get(body, "email") == Some(Str("ada@example.com"))
  {
  }

  /** A five-character password reports only that the password is too short. */
  lemma ShortPassword()
    ensures Reported(RegisterChecks([("username", Str("ada")), ("email", Str("ada@example.com")),
                                     ("password", Str("13456"))])) ==
      [PasswordShort]
  {
    ShortPasswordChecks([("username", Str("ada")), ("email", Str("ada@example.com")), ("password", Str("13456"))]);
    assert Reported([Fine]) == [] by { assert [Fine][1..] == []; }
    assert Reported([Report(PasswordShort), Fine]) == [PasswordShort] by {
      assert [Report(PasswordShort), Fine][1..] == [Fine];
    }
    assert [Fine, Report(PasswordShort), Fine][1..] == [Report(PasswordShort), Fine];
  }
}
