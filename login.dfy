/**
 * The login form: a username and password checked when the form is
 * submitted, with the verdict written into `message`.
 */
module Login {
  import opened JsStrings

  const SuccessMessage: string := "Successfully completed"
  const ErrorMessage: string := "Error: Invalid username or password"

  /** The username, trimmed, is longer than 5 characters. */
  predicate UsernameValid(username: string)
    ensures UsernameValid(username) ==> |username| >= 6
    ensures username != [] && !IsWhiteSpace(username[0]) && !IsWhiteSpace(username[|username| - 1]) ==>
      (UsernameValid(username) <==> |username| >= 6)
  {
    |Trim(username)| > 5
  }

  /** The four character classes the password's lookaheads ask for:
      `[a-z]`, `[A-Z]`, `\d` and `[\W_]`. */
  datatype CharClass = Lower | Upper | Digit | Symbol

  predicate IsLower(c: char) { 'a' <= c <= 'z' }
  predicate IsUpper(c: char) { 'A' <= c <= 'Z' }
  predicate IsDigit(c: char) { '0' <= c <= '9' }

  /** `\w` without the `u` flag: ASCII letters, digits and `_`. */
  predicate IsWordChar(c: char) { IsLower(c) || IsUpper(c) || IsDigit(c) || c == '_' }

  predicate InClass(c: char, k: CharClass) {
    match k
    case Lower => IsLower(c)
    case Upper => IsUpper(c)
    case Digit => IsDigit(c)
    case Symbol => !IsWordChar(c) || c == '_'
  }

  /** What `.` matches without the `s` flag: anything but a line terminator. */
  predicate AllDot(s: string) {
    forall i :: 0 <= i < |s| ==> !IsLineTerminator(s[i])
  }

  /** `^(?=.*[k])`: from the start, a run of `.` characters followed by a
      character of class `k`. */
  predicate LookaheadAtStart(p: string, k: CharClass) {
    exists i :: 0 <= i < |p| && InClass(p[i], k) && AllDot(p[..i])
  }

  /** `/^(?=.*[a-z])(?=.*[A-Z])(?=.*\d)(?=.*[\W_]).{8,}$/.test(p)`, read
      construct by construct: the four lookaheads at position 0, then
      `.{8,}$`, eight or more `.` characters up to the end of the input. */
  predicate PasswordMatches(p: string) {
    && LookaheadAtStart(p, Lower)
    && LookaheadAtStart(p, Upper)
    && LookaheadAtStart(p, Digit)
    && LookaheadAtStart(p, Symbol)
    && |p| >= 8 && AllDot(p)
  }

  predicate Contains(p: string, k: CharClass) {
    exists i :: 0 <= i < |p| && InClass(p[i], k)
  }

  /** The password rule stated plainly: at least 8 characters, none a line
      terminator, and at least one of each class. */
  predicate PasswordValid(p: string) {
    && |p| >= 8 && AllDot(p)
    && Contains(p, Lower) && Contains(p, Upper) && Contains(p, Digit) && Contains(p, Symbol)
  }

  /** Once no character is a line terminator, each lookahead only asks for
      one character of its class somewhere. */
  lemma LookaheadIsContains(p: string, k: CharClass)
    requires AllDot(p)
    ensures LookaheadAtStart(p, k) <==> Contains(p, k)
  {
    if Contains(p, k) {
      var i :| 0 <= i < |p| && InClass(p[i], k);
      assert AllDot(p[..i]) by {
        forall j | 0 <= j < i ensures !IsLineTerminator(p[..i][j]) {
          assert p[..i][j] == p[j];
        }
      }
    }
  }

  /** The regular expression accepts exactly the passwords of the plain rule. */
  lemma PasswordMatchesIff(p: string)
    ensures PasswordMatches(p) <==> PasswordValid(p)
  {
    if AllDot(p) {
      LookaheadIsContains(p, Lower);
      LookaheadIsContains(p, Upper);
      LookaheadIsContains(p, Digit);
      LookaheadIsContains(p, Symbol);
    }
  }

  /** Dropping any one class makes a password invalid, whatever else it has. */
  lemma PasswordNeedsEachClass(p: string, k: CharClass)
    requires !Contains(p, k)
    ensures !PasswordMatches(p)
  {
    PasswordMatchesIff(p);
  }

  /** A password with a line terminator anywhere is rejected. */
  lemma PasswordRejectsLineTerminator(p: string, i: int)
    requires 0 <= i < |p| && IsLineTerminator(p[i])
    ensures !PasswordMatches(p)
  {
  }

  /** Surrounding whitespace does not count towards the username's length. */
  lemma UsernameIgnoresPadding(w1: string, u: string, w2: string)
    requires AllWhiteSpace(w1) && AllWhiteSpace(w2)
    ensures UsernameValid(w1 + u + w2) <==> UsernameValid(u)
  {
    TrimIgnoresPadding(w1, u, w2);
  }

  /** Six characters is the shortest valid username, and padding a
      five-character one does not make it valid. */
  lemma UsernameExamples()
    ensures UsernameValid("abcdef")
    ensures !UsernameValid("abcde")
    ensures !UsernameValid("  abcde  ")
  {
    TrimPadded("", "abcdef", "");
    assert "" + "abcdef" + "" == "abcdef";
    TrimPadded("", "abcde", "");
    assert "" + "abcde" + "" == "abcde";
    TrimPadded("  ", "abcde", "  ");
    assert "  " + "abcde" + "  " == "  abcde  ";
  }

  /** The password is not trimmed: spaces count towards its length and
      serve as the `[\W_]` character, and trimming would reject it. */
  lemma PasswordNotTrimmed()
    ensures PasswordMatches("Ab1     ")
    ensures !PasswordMatches(Trim("Ab1     "))
  {
    var p := "Ab1     ";
    PasswordMatchesIff(p);
    assert InClass(p[0], Upper) && InClass(p[1], Lower);
    assert InClass(p[2], Digit) && InClass(p[3], Symbol);
    TrimPadded("", "Ab1", "     ");
    assert "" + "Ab1" + "     " == p;
  }

  /** `_` is enough for the `[\W_]` class. */
  lemma PasswordUnderscoreCounts()
    ensures PasswordMatches("Secret_1")
  {
    var q := "Secret_1";
    PasswordMatchesIff(q);
    assert InClass(q[0], Upper) && InClass(q[1], Lower);
    assert InClass(q[7], Digit) && InClass(q[6], Symbol);
  }

  /** Letters and digits alone, or a trailing newline, are rejected. */
  lemma PasswordRejections()
    ensures !PasswordMatches("Secret12")
    ensures !PasswordMatches("Secret_1\n")
  {
    var r := "Secret12";
    assert !Contains(r, Symbol) by {
      forall i | 0 <= i < |r| ensures !InClass(r[i], Symbol) {
        assert IsWordChar(r[i]);
      }
    }
    PasswordNeedsEachClass(r, Symbol);
    PasswordRejectsLineTerminator("Secret_1\n", 8);
  }

  /** The message `onSubmit` writes for a username and a password. */
  function SubmitMessage(username: string, password: string): (m: string)
    ensures m == SuccessMessage <==> UsernameValid(username) && PasswordMatches(password)
    ensures m == ErrorMessage <==> !(UsernameValid(username) && PasswordMatches(password))
    ensures m == SuccessMessage <==> UsernameValid(username) && PasswordValid(password)
  {
    PasswordMatchesIff(password);
    if UsernameValid(username) && PasswordMatches(password) then SuccessMessage else ErrorMessage
  }

  /** The form component. */
  class LoginComponent {
    var username: string
    var password: string
    var message: string

    constructor ()
      ensures username == "" && password == "" && message == ""
    {
      username, password, message := "", "", "";
    }

    /** `onSubmit`: writes the verdict into `message` and nothing else, so
        submitting again writes the same message. */
    method OnSubmit()
      modifies this`message
      ensures message == SubmitMessage(username, password)
      ensures username == old(username) && password == old(password)
    {
      var usernameValid := UsernameValid(username);
      var passwordValid := PasswordMatches(password);
      if usernameValid && passwordValid {
        message := SuccessMessage;
      } else {
        message := ErrorMessage;
      }
    }
  }
}
