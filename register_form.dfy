/** The registration page's client-side check: four field rules whose failures are collected
    under the field's name, and a submit handler that sends the form only when none failed. */
module RegisterForm {
  import opened Common

  datatype Form = Form(firstName: string, lastName: string, email: string, password: string)

  /** The characters the regular-expression class \s matches in JavaScript. */
  predicate IsJsSpace(c: char) {
    c == '\t' || c == '\n' || c == '\U{000B}' || c == '\U{000C}' || c == '\r' || c == ' '
    || c == '\U{00A0}' || c == '\U{1680}' || ('\U{2000}' <= c <= '\U{200A}')
    || c == '\U{2028}' || c == '\U{2029}' || c == '\U{202F}' || c == '\U{205F}'
    || c == '\U{3000}' || c == '\U{FEFF}'
  }

  /** s[lo..hi] matches [^\s@]* : no whitespace and no '@'. */
  predicate Plain(s: string, lo: int, hi: int)
    requires 0 <= lo <= hi <= |s|
  {
    forall k :: lo <= k < hi ==> !IsJsSpace(s[k]) && s[k] != '@'
  }

  /** The whole string matches ^[^\s@]+@[^\s@]+\.[^\s@]+$ : a '@' at i and a '.' at j split it
      into three non-empty parts free of whitespace and '@'. */
  ghost predicate MatchesEmailPattern(s: string) {
    exists i, j :: 0 < i && i + 1 < j && j + 1 < |s| && s[i] == '@' && s[j] == '.'
                   && Plain(s, 0, i) && Plain(s, i + 1, j) && Plain(s, j + 1, |s|)
  }

  /** The position of the first c in s, if any. */
  function IndexOf(s: string, c: char): (r: Option<nat>)
    ensures r.Some? ==> r.value < |s| && s[r.value] == c && c !in s[..r.value]
    ensures r.None? ==> c !in s
  {
    if s == [] then None
    else if s[0] == c then Some(0)
    else
      var rest := IndexOf(s[1..], c);
      if rest.None? then None
      else
        assert s[..rest.value + 1] == [s[0]] + s[1..][..rest.value];
        Some(rest.value + 1)
  }

  /** A direct scan for the email shape: no whitespace anywhere, exactly one '@' and not first,
      and a '.' after it with at least one character on each side. */
  predicate EmailShapeOk(s: string) {
    (forall k :: 0 <= k < |s| ==> !IsJsSpace(s[k]))
    && match IndexOf(s, '@')
       case None => false
       case Some(i) => 0 < i && i + 2 < |s| && '@' !in s[i + 1..] && '.' in s[i + 2..|s| - 1]
  }

  /** A string the scan accepts matches the regular expression. */
  lemma ShapeMatchesPattern(s: string)
    requires EmailShapeOk(s)
    ensures MatchesEmailPattern(s)
  {
    var i := IndexOf(s, '@').value;
    var dots := s[i + 2..|s| - 1];
    var d :| 0 <= d < |dots| && dots[d] == '.';
    var j := i + 2 + d;
    assert s[j] == dots[d];
    var before := s[..i];
    forall k | 0 <= k < i ensures s[k] != '@' {
      assert s[k] == before[k];
    }
    var after := s[i + 1..];
    forall k | i + 1 <= k < |s| ensures s[k] != '@' {
      assert s[k] == after[k - i - 1];
    }
    assert Plain(s, 0, i) && Plain(s, i + 1, j) && Plain(s, j + 1, |s|);
  }

  /** A string the regular expression matches is accepted by the scan. */
  lemma PatternMatchesShape(s: string)
    requires MatchesEmailPattern(s)
    ensures EmailShapeOk(s)
  {
    var i, j :| 0 < i && i + 1 < j && j + 1 < |s| && s[i] == '@' && s[j] == '.'
                && Plain(s, 0, i) && Plain(s, i + 1, j) && Plain(s, j + 1, |s|);
    var r := IndexOf(s, '@');
    assert r.Some? by {
      assert s[i] in s;
    }
    assert r.value == i;
    forall k | 0 <= k < |s| ensures !IsJsSpace(s[k]) {
      if k < i {
        assert Plain(s, 0, i);
      } else if i < k < j {
        assert Plain(s, i + 1, j);
      } else if j < k {
        assert Plain(s, j + 1, |s|);
      }
    }
    var after := s[i + 1..];
    forall k | 0 <= k < |after| ensures after[k] != '@' {
      assert after[k] == s[i + 1 + k];
      if i + 1 + k < j {
        assert Plain(s, i + 1, j);
      } else if i + 1 + k > j {
        assert Plain(s, j + 1, |s|);
      }
    }
    var dots := s[i + 2..|s| - 1];
    assert dots[j - i - 2] == '.';
  }

  /** The scan accepts exactly the strings the regular expression matches. */
  lemma EmailShapeIffPattern(s: string)
    ensures EmailShapeOk(s) <==> MatchesEmailPattern(s)
  {
    if EmailShapeOk(s) {
      ShapeMatchesPattern(s);
    }
    if MatchesEmailPattern(s) {
      PatternMatchesShape(s);
    }
  }

  /** validateForm's errors object: one message under each field whose rule fails. */
  function ValidationErrors(form: Form): (errors: map<string, string>)
    ensures "firstName" in errors <==> |form.firstName| < 2
    ensures "lastName" in errors <==> |form.lastName| < 2
    ensures "email" in errors <==> !EmailShapeOk(form.email)
    ensures "password" in errors <==> |form.password| < 6
    ensures errors.Keys <= {"firstName", "lastName", "email", "password"}
    ensures "firstName" in errors ==> errors["firstName"] == "First name must be at least 2 characters"
    ensures "lastName" in errors ==> errors["lastName"] == "Last name must be at least 2 characters"
    ensures "email" in errors ==> errors["email"] == "Invalid email format"
    ensures "password" in errors ==> errors["password"] == "Password must be at least 6 characters"
  {
    var e0: map<string, string> := map[];
    var e1 := if |form.firstName| < 2 then e0["firstName" := "First name must be at least 2 characters"] else e0;
    var e2 := if |form.lastName| < 2 then e1["lastName" := "Last name must be at least 2 characters"] else e1;
    var e3 := if !EmailShapeOk(form.email) then e2["email" := "Invalid email format"] else e2;
    if |form.password| < 6 then e3["password" := "Password must be at least 6 characters"] else e3
  }

  /** validateForm's answer: the form is valid exactly when no rule failed, that is when both
      names have at least two characters, the email has the required shape and the password at
      least six characters. */
  function IsValid(form: Form): (valid: bool)
    ensures valid <==> |ValidationErrors(form)| == 0
    ensures valid <==> |form.firstName| >= 2 && |form.lastName| >= 2 && MatchesEmailPattern(form.email)
                       && |form.password| >= 6
  {
    EmailShapeIffPattern(form.email);
    NoErrorsIffRulesHold(form);
    |ValidationErrors(form)| == 0
  }

  /** The errors object is empty exactly when all four rules hold. */
  lemma NoErrorsIffRulesHold(form: Form)
    ensures |ValidationErrors(form)| == 0 <==>
              |form.firstName| >= 2 && |form.lastName| >= 2 && EmailShapeOk(form.email) && |form.password| >= 6
  {
    var errors := ValidationErrors(form);
    var failed := if |form.firstName| < 2 then "firstName" else if |form.lastName| < 2 then "lastName"
                  else if !EmailShapeOk(form.email) then "email" else "password";
    if failed in errors {
      assert failed in errors.Keys;
      assert |errors.Keys| > 0;
    } else {
      assert errors.Keys == {};
    }
  }

  /** What handleSubmit does: stop with the errors on display, or send the form. */
  datatype Submission = Stopped(errors: map<string, string>) | Posted(path: string, body: Form)

  /** handleSubmit: the registration request leaves only for a valid form, and it carries the
      form unchanged. */
  function Submit(form: Form): (r: Submission)
    ensures r.Posted? <==> IsValid(form)
    ensures r.Stopped? ==> r.errors == ValidationErrors(form) && |r.errors| > 0
    ensures r.Posted? ==> r.path == "/api/auth/register" && r.body == form
  {
    if !IsValid(form) then Stopped(ValidationErrors(form)) else Posted("/api/auth/register", form)
  }
}
