/**
 * The client-side validators of `script.js`: the password-strength score, the
 * e-mail check, `ValidationUtils` over a form's elements, and the password
 * visibility toggle. Strings are sequences of characters; JavaScript counts
 * UTF-16 code units, which agrees for text in the Basic Multilingual Plane.
 */
module Script {
  import opened Wrappers

  // ---------------------------------------------------------------------------
  // Character classes
  // ---------------------------------------------------------------------------

  /** JavaScript's `\s` class, which is also the set `trim` removes (white space and line terminators). */
  predicate IsJsSpace(c: char) {
    || c in {'\t', '\n', '\U{000B}', '\U{000C}', '\r', ' ', '\U{00A0}', '\U{1680}',
             '\U{2028}', '\U{2029}', '\U{202F}', '\U{205F}', '\U{3000}', '\U{FEFF}'}
    || '\U{2000}' <= c <= '\U{200A}'
  }

  predicate IsLower(c: char) { 'a' <= c <= 'z' }
  predicate IsUpper(c: char) { 'A' <= c <= 'Z' }
  predicate IsDigit(c: char) { '0' <= c <= '9' }

  /** `/[a-z]/.test(s)`. */
  predicate HasLower(s: string) { exists i :: 0 <= i < |s| && IsLower(s[i]) }
  /** `/[A-Z]/.test(s)`. */
  predicate HasUpper(s: string) { exists i :: 0 <= i < |s| && IsUpper(s[i]) }
  /** `/[0-9]/.test(s)`. */
  predicate HasDigit(s: string) { exists i :: 0 <= i < |s| && IsDigit(s[i]) }
  /** `/[^A-Za-z0-9]/.test(s)`: any character that is not an ASCII letter or digit. */
  predicate HasOther(s: string) { exists i :: 0 <= i < |s| && !IsLower(s[i]) && !IsUpper(s[i]) && !IsDigit(s[i]) }

  // ---------------------------------------------------------------------------
  // validatePasswordStrength
  // ---------------------------------------------------------------------------

  /** The feedback pair: a message and a Bootstrap colour. */
  datatype Feedback = Feedback(message: string, level: string)

  /** What `validatePasswordStrength` returns. */
  datatype StrengthReport = StrengthReport(strength: int, feedback: Feedback)

  const Weak := Feedback("Senha muito fraca", "danger")
  const Medium := Feedback("Senha média", "warning")
  const Strong := Feedback("Senha forte", "success")

  /** The score: the chain of six `if`s as a sum. */
  function Strength(password: string): int {
    (if |password| >= 6 then 20 else 0)
    + (if |password| >= 8 then 20 else 0)
    + (if HasLower(password) then 20 else 0)
    + (if HasUpper(password) then 20 else 0)
    + (if HasDigit(password) then 10 else 0)
    + (if HasOther(password) then 10 else 0)
  }

  /** The band a score falls in: below 40, below 70, or above. */
  function FeedbackFor(strength: int): Feedback {
    if strength < 40 then Weak
    else if strength < 70 then Medium
    else Strong
  }

  function ValidatePasswordStrength(password: string): StrengthReport {
    var strength := Strength(password);
    StrengthReport(strength, FeedbackFor(strength))
  }

  /** The bands in order. */
  function Rank(f: Feedback): int {
    if f == Weak then 0 else if f == Medium then 1 else 2
  }

  /**
   * The score is a multiple of ten between 0 and 100, and it is 100 exactly when
   * the password has at least eight characters and all four character classes.
   */
  lemma StrengthRange(password: string)
    ensures var s := Strength(password); 0 <= s <= 100 && s % 10 == 0
    ensures Strength(password) == 100
        <==> |password| >= 8 && HasLower(password) && HasUpper(password) && HasDigit(password) && HasOther(password)
  {
  }

  /** Every score gets exactly one of the three feedback pairs, and higher scores never a lower band. */
  lemma FeedbackBands(s1: int, s2: int)
    ensures FeedbackFor(s1) in {Weak, Medium, Strong}
    ensures FeedbackFor(s1) == Weak <==> s1 < 40
    ensures FeedbackFor(s1) == Strong <==> s1 >= 70
    ensures s1 <= s2 ==> Rank(FeedbackFor(s1)) <= Rank(FeedbackFor(s2))
  {
  }

  /** A character class present in `s` is present after appending to it. */
  lemma ClassesSurviveAppend(s: string, t: string)
    ensures HasLower(s) ==> HasLower(s + t)
    ensures HasUpper(s) ==> HasUpper(s + t)
    ensures HasDigit(s) ==> HasDigit(s + t)
    ensures HasOther(s) ==> HasOther(s + t)
  {
    if HasLower(s) { var i :| 0 <= i < |s| && IsLower(s[i]); assert (s + t)[i] == s[i]; }
    if HasUpper(s) { var i :| 0 <= i < |s| && IsUpper(s[i]); assert (s + t)[i] == s[i]; }
    if HasDigit(s) { var i :| 0 <= i < |s| && IsDigit(s[i]); assert (s + t)[i] == s[i]; }
    if HasOther(s) {
      var i :| 0 <= i < |s| && !IsLower(s[i]) && !IsUpper(s[i]) && !IsDigit(s[i]);
      assert (s + t)[i] == s[i];
    }
  }

  /** Typing more characters never lowers the score nor the feedback band. */
  lemma StrengthMonotone(s: string, t: string)
    ensures Strength(s) <= Strength(s + t)
    ensures Rank(ValidatePasswordStrength(s).feedback) <= Rank(ValidatePasswordStrength(s + t).feedback)
  {
    ClassesSurviveAppend(s, t);
    FeedbackBands(Strength(s), Strength(s + t));
  }

  /** Scores of sample passwords with digits only: both are weak. */
  lemma SampleStrengthsDigits()
    ensures Strength("123") == 10 && FeedbackFor(Strength("123")) == Weak
    ensures Strength("123456") == 30 && FeedbackFor(Strength("123456")) == Weak
  {
    assert !HasLower("123") && !HasUpper("123") && !HasOther("123");
    assert IsDigit("123"[0]);
    assert !HasLower("123456") && !HasUpper("123456") && !HasOther("123456");
    assert IsDigit("123456"[0]);
  }

  /**
   * Scores of sample passwords with letters only, as the function computes
   * them: "password" scores 60 (length 6, length 8, a lower-case letter) and
   * "Password" 80, which is strong.
   */
  lemma SampleStrengthsLetters()
    ensures Strength("password") == 60 && FeedbackFor(Strength("password")) == Medium
    ensures Strength("Password") == 80 && FeedbackFor(Strength("Password")) == Strong
  {
    assert IsLower("password"[0]);
    assert !HasUpper("password") && !HasDigit("password") && !HasOther("password");
    assert IsUpper("Password"[0]) && IsLower("Password"[1]);
    assert !HasDigit("Password") && !HasOther("Password");
  }

  /** Scores of mixed sample passwords: "password123" scores 70, already strong, and "Password123!" 100. */
  lemma SampleStrengthsMixed()
    ensures Strength("password123") == 70 && FeedbackFor(Strength("password123")) == Strong
    ensures Strength("Password123!") == 100 && FeedbackFor(Strength("Password123!")) == Strong
  {
    var p := "password123";
    assert IsLower(p[0]) && IsDigit(p[8]);
    assert !HasUpper(p) && !HasOther(p);
    var q := "Password123!";
    assert IsUpper(q[0]) && IsLower(q[1]) && IsDigit(q[8]);
    assert !IsLower(q[11]) && !IsUpper(q[11]) && !IsDigit(q[11]);
  }

  // ---------------------------------------------------------------------------
  // isValidEmail
  // ---------------------------------------------------------------------------

  /** `[^\s@]`. */
  predicate EmailChar(c: char) { c != '@' && !IsJsSpace(c) }

  /** `[^\s@]+`. */
  predicate EmailRun(s: string) { |s| > 0 && forall k :: 0 <= k < |s| ==> EmailChar(s[k]) }

  /**
   * `isValidEmail`: the string splits as `^[^\s@]+@[^\s@]+\.[^\s@]+$` requires,
   * at an '@' at `i` and a '.' at `j`.
   */
  predicate IsValidEmail(email: string) {
    exists i, j :: 0 < i < j < |email| - 1 && email[i] == '@' && email[j] == '.'
      && EmailRun(email[..i]) && EmailRun(email[i + 1..j]) && EmailRun(email[j + 1..])
  }

  /**
   * The same test stated as properties of the whole string: no white space,
   * exactly one '@', a non-empty part before it, and a '.' after it that is
   * neither the domain's first nor its last character.
   */
  predicate EmailShape(email: string) {
    && (forall k :: 0 <= k < |email| ==> !IsJsSpace(email[k]))
    && exists i :: 0 < i < |email| && email[i] == '@'
         && (forall k :: 0 <= k < |email| && k != i ==> email[k] != '@')
         && (exists j :: i + 1 < j < |email| - 1 && email[j] == '.')
  }

  /** A string the pattern accepts has the shape. */
  lemma PatternGivesShape(email: string)
    requires IsValidEmail(email)
    ensures EmailShape(email)
  {
    var i, j :| 0 < i < j < |email| - 1 && email[i] == '@' && email[j] == '.'
      && EmailRun(email[..i]) && EmailRun(email[i + 1..j]) && EmailRun(email[j + 1..]);
    forall k | 0 <= k < |email| && k != i ensures !IsJsSpace(email[k]) && email[k] != '@' {
      if k < i { assert email[k] == email[..i][k]; }
      else if k < j { assert email[k] == email[i + 1..j][k - i - 1]; }
      else if k > j { assert email[k] == email[j + 1..][k - j - 1]; }
    }
    assert exists j' :: i + 1 < j' < |email| - 1 && email[j'] == '.' by { assert i + 1 < j; }
  }

  /** A string of that shape is accepted, split at its '@' and at a '.' after it. */
  lemma ShapeGivesPattern(email: string)
    requires EmailShape(email)
    ensures IsValidEmail(email)
  {
    var i :| 0 < i < |email| && email[i] == '@'
       && (forall k :: 0 <= k < |email| && k != i ==> email[k] != '@')
       && (exists j :: i + 1 < j < |email| - 1 && email[j] == '.');
    var j :| i + 1 < j < |email| - 1 && email[j] == '.';
    assert EmailRun(email[..i]);
    assert EmailRun(email[i + 1..j]);
    assert EmailRun(email[j + 1..]);
  }

  /** The pattern and the description agree on every string. */
  lemma EmailPatternMeansShape(email: string)
    ensures IsValidEmail(email) <==> EmailShape(email)
  {
    if IsValidEmail(email) {
      PatternGivesShape(email);
    }
    if EmailShape(email) {
      ShapeGivesPattern(email);
    }
  }

  /** A plain address from the source's own examples is accepted. */
  lemma SimpleEmailAccepted()
    ensures IsValidEmail("test@example.com")
  {
    var e := "test@example.com";
    assert EmailRun(e[..4]) by { assert e[..4] == "test"; }
    assert EmailRun(e[5..12]) by { assert e[5..12] == "example"; }
    assert EmailRun(e[13..]) by { assert e[13..] == "com"; }
    assert e[4] == '@' && e[12] == '.';
  }

  /** An address with dots in both parts, from the source's own examples, is accepted. */
  lemma DottedEmailAccepted()
    ensures IsValidEmail("user.name@domain.co.uk")
  {
    var f := "user.name@domain.co.uk";
    assert EmailRun(f[..9]) by { assert f[..9] == "user.name"; }
    assert EmailRun(f[10..16]) by { assert f[10..16] == "domain"; }
    assert EmailRun(f[17..]) by { assert f[17..] == "co.uk"; }
    assert f[9] == '@' && f[16] == '.';
  }

  /**
   * In an accepted address the '@' is unique, so wherever one '@' stands, a
   * '.' follows it with at least one character on each side.
   */
  lemma DotFollowsAt(email: string, at: int)
    requires IsValidEmail(email) && 0 <= at < |email| && email[at] == '@'
    ensures exists j :: at + 1 < j < |email| - 1 && email[j] == '.'
  {
    PatternGivesShape(email);
    var i :| 0 < i < |email| && email[i] == '@'
       && (forall k :: 0 <= k < |email| && k != i ==> email[k] != '@')
       && (exists j :: i + 1 < j < |email| - 1 && email[j] == '.');
    assert i == at;
  }

  /** Addresses without a local part are rejected. */
  lemma RejectedWithoutLocalPart()
    ensures !IsValidEmail("")
    ensures !IsValidEmail("@example.com")
  {
    var e := "@example.com";
    forall i | 0 < i < |e| ensures !EmailRun(e[..i]) {
      assert e[..i][0] == '@';
    }
  }

  /**
   * `regex.test` converts a non-string argument to a string first: null,
   * undefined and 123 are tested as "null", "undefined" and "123". None of
   * those holds an '@', so all three are rejected.
   */
  lemma CoercedNonStringsRejected()
    ensures !IsValidEmail("null") && !IsValidEmail("undefined") && !IsValidEmail("123")
  {
  }

  /** An address that ends at its '@' is rejected. */
  lemma RejectedWithoutDomain()
    ensures !IsValidEmail("test@")
  {
    if IsValidEmail("test@") {
      DotFollowsAt("test@", 4);
    }
  }

  /** An address with nothing between its '@' and its dot is rejected. */
  lemma RejectedWithoutDomainName()
    ensures !IsValidEmail("test@.com")
  {
    if IsValidEmail("test@.com") {
      DotFollowsAt("test@.com", 4);
    }
  }

  /** An address ending in its dot is rejected. */
  lemma RejectedWithoutTopLevelDomain()
    ensures !IsValidEmail("test@example.")
  {
    if IsValidEmail("test@example.") {
      DotFollowsAt("test@example.", 4);
    }
  }

  /** An address with a space in it is rejected. */
  lemma SpaceInEmailRejected()
    ensures !IsValidEmail("test space@example.com")
  {
    var e := "test space@example.com";
    forall i | 0 <= i < |e| && e[i] == '@' ensures i == 10 { }
    assert !EmailRun(e[..10]) by { assert e[..10][4] == ' '; }
  }

  // ---------------------------------------------------------------------------
  // trim
  // ---------------------------------------------------------------------------

  /** Drops leading white space. */
  function TrimStart(s: string): string {
    if s != [] && IsJsSpace(s[0]) then TrimStart(s[1..]) else s
  }

  /** Drops trailing white space. */
  function TrimEnd(s: string): string {
    if s != [] && IsJsSpace(s[|s| - 1]) then TrimEnd(s[..|s| - 1]) else s
  }

  /** `String.prototype.trim`. */
  function Trim(s: string): string {
    TrimEnd(TrimStart(s))
  }

  /** `TrimStart` leaves a suffix that does not start with white space, and drops only white space. */
  lemma {:induction false} TrimStartSpec(s: string)
    ensures var r := TrimStart(s);
      && |r| <= |s| && r == s[|s| - |r|..]
      && (forall k :: 0 <= k < |s| - |r| ==> IsJsSpace(s[k]))
      && (r == [] || !IsJsSpace(r[0]))
  {
    if s != [] && IsJsSpace(s[0]) {
      TrimStartSpec(s[1..]);
      var r := TrimStart(s[1..]);
      assert s[1..][|s| - 1 - |r|..] == s[|s| - |r|..];
      forall k | 0 <= k < |s| - |r| ensures IsJsSpace(s[k]) {
        if k > 0 {
          assert s[k] == s[1..][k - 1];
        }
      }
    }
  }

  /** `TrimEnd` leaves a prefix that does not end with white space, and drops only white space. */
  lemma {:induction false} TrimEndSpec(s: string)
    ensures var r := TrimEnd(s);
      && |r| <= |s| && r == s[..|r|]
      && (forall k :: |r| <= k < |s| ==> IsJsSpace(s[k]))
      && (r == [] || !IsJsSpace(r[|r| - 1]))
  {
    if s != [] && IsJsSpace(s[|s| - 1]) {
      TrimEndSpec(s[..|s| - 1]);
      var r := TrimEnd(s[..|s| - 1]);
      assert s[..|s| - 1][..|r|] == s[..|r|];
      forall k | |r| <= k < |s| ensures IsJsSpace(s[k]) {
        if k < |s| - 1 {
          assert s[k] == s[..|s| - 1][k];
        }
      }
    }
  }

  /** Trimming leaves nothing exactly when every character is white space. */
  lemma TrimEmptyIffBlank(s: string)
    ensures Trim(s) == [] <==> forall k :: 0 <= k < |s| ==> IsJsSpace(s[k])
  {
    TrimStartSpec(s);
    var t := TrimStart(s);
    TrimEndSpec(t);
  }

  // ---------------------------------------------------------------------------
  // ValidationUtils
  // ---------------------------------------------------------------------------

  datatype Tag = Input | Select | Textarea | OtherTag

  /** A form element: its tag, whether it carries `required`, its value and its class list. */
  datatype Element = Element(tag: Tag, required: bool, value: string, classes: set<string>)

  const IsValidClass := "is-valid"
  const IsInvalidClass := "is-invalid"

  /** Chosen by `input[required], select[required], textarea[required]`. */
  predicate Checked(e: Element) {
    e.required && e.tag != OtherTag
  }

  /** `input.value.trim()` is non-empty. */
  predicate Filled(e: Element) {
    Trim(e.value) != []
  }

  /** What `validateForm` does to one element. */
  function Validate(e: Element): Element {
    if !Checked(e) then e
    else if !Filled(e) then e.(classes := e.classes + {IsInvalidClass})
    else e.(classes := e.classes - {IsInvalidClass} + {IsValidClass})
  }

  /** The form's elements after `validateForm`. */
  function Validated(form: seq<Element>): seq<Element> {
    seq(|form|, i requires 0 <= i < |form| => Validate(form[i]))
  }

  /** `validateForm`'s result: every checked element is filled. */
  predicate AllRequiredFilled(form: seq<Element>) {
    forall i :: 0 <= i < |form| && Checked(form[i]) ==> Filled(form[i])
  }

  /** What `clearValidation` does to one element (a no-op on one with neither class). */
  function Clear(e: Element): Element {
    e.(classes := e.classes - {IsValidClass, IsInvalidClass})
  }

  /** The form's elements after `clearValidation`. */
  function Cleared(form: seq<Element>): seq<Element> {
    seq(|form|, i requires 0 <= i < |form| => Clear(form[i]))
  }

  /**
   * `validateForm`, element by element: unchecked elements are untouched; an
   * empty (or blank) required one gains `is-invalid` and keeps any `is-valid` it
   * had; a filled one loses `is-invalid` and gains `is-valid`. Tag, flag, value
   * and every other class stay as they were.
   */
  lemma ValidateMarks(form: seq<Element>, i: int)
    requires 0 <= i < |form|
    ensures var e, v := form[i], Validated(form)[i];
      && |Validated(form)| == |form|
      && v.tag == e.tag && v.required == e.required && v.value == e.value
      && (forall c :: c != IsValidClass && c != IsInvalidClass ==> (c in v.classes <==> c in e.classes))
      && (!Checked(e) ==> v == e)
      && (Checked(e) && !Filled(e) ==> IsInvalidClass in v.classes && (IsValidClass in v.classes <==> IsValidClass in e.classes))
      && (Checked(e) && Filled(e) ==> IsValidClass in v.classes && IsInvalidClass !in v.classes)
  {
  }

  /** A value counts as filled exactly when it has a character other than white space. */
  lemma FilledMeansNotBlank(e: Element)
    ensures Filled(e) <==> exists k :: 0 <= k < |e.value| && !IsJsSpace(e.value[k])
  {
    TrimEmptyIffBlank(e.value);
  }

  /**
   * The result `validateForm` returns can be read off the form afterwards: it is
   * true exactly when no checked element carries `is-invalid`.
   */
  lemma ResultMatchesMarks(form: seq<Element>)
    ensures AllRequiredFilled(form)
        <==> forall i :: 0 <= i < |form| && Checked(Validated(form)[i]) ==> IsInvalidClass !in Validated(form)[i].classes
  {
    forall i | 0 <= i < |form| ensures Checked(Validated(form)[i]) == Checked(form[i]) {
      ValidateMarks(form, i);
    }
  }

  /** One element validated twice is validated once. */
  lemma ValidateTwice(e: Element)
    ensures Validate(Validate(e)) == Validate(e)
  {
    if Checked(e) && !Filled(e) {
      assert e.classes + {IsInvalidClass} + {IsInvalidClass} == e.classes + {IsInvalidClass};
    } else if Checked(e) {
      var c := e.classes - {IsInvalidClass} + {IsValidClass};
      assert c - {IsInvalidClass} + {IsValidClass} == c;
    }
  }

  /** Validating twice is validating once. */
  lemma ValidateIdempotent(form: seq<Element>)
    ensures Validated(Validated(form)) == Validated(form)
  {
    forall i | 0 <= i < |form| ensures Validated(Validated(form))[i] == Validated(form)[i] {
      ValidateTwice(form[i]);
    }
  }

  /**
   * `clearValidation` removes both marks from every element and changes
   * nothing else, so it undoes whatever `validateForm` marked.
   */
  lemma ClearRemovesMarks(form: seq<Element>)
    ensures |Cleared(form)| == |form|
    ensures forall i :: 0 <= i < |form| ==>
      && IsValidClass !in Cleared(form)[i].classes && IsInvalidClass !in Cleared(form)[i].classes
      && Cleared(form)[i].classes == form[i].classes - {IsValidClass, IsInvalidClass}
      && Cleared(form)[i].(classes := form[i].classes) == form[i]
    ensures Cleared(Validated(form)) == Cleared(form)
  {
    forall i | 0 <= i < |form| ensures Cleared(Validated(form))[i] == Cleared(form)[i] {
      assert Validated(form)[i] == Validate(form[i]);
    }
  }

  /** `ValidationUtils.validateForm`, over the elements of the form in document order. */
  method ValidateForm(form: array<Element>) returns (isValid: bool)
    modifies form
    ensures form[..] == Validated(old(form[..]))
    ensures isValid == AllRequiredFilled(old(form[..]))
  {
    ghost var original := form[..];
    isValid := true;
    var i := 0;
    while i < form.Length
      invariant 0 <= i <= form.Length
      invariant forall k :: 0 <= k < i ==> form[k] == Validate(original[k])
      invariant forall k :: i <= k < form.Length ==> form[k] == original[k]
      invariant isValid <==> forall k :: 0 <= k < i && Checked(original[k]) ==> Filled(original[k])
    {
      var input := form[i];
      if Checked(input) {
        if !Filled(input) {
          input := input.(classes := input.classes + {IsInvalidClass});
          isValid := false;
        } else {
          input := input.(classes := input.classes - {IsInvalidClass} + {IsValidClass});
        }
        form[i] := input;
      }
      i := i + 1;
    }
    assert forall k :: 0 <= k < form.Length ==> form[..][k] == Validated(original)[k];
  }

  /** `ValidationUtils.clearValidation`: strips both marks from each element that has one. */
  method ClearValidation(form: array<Element>)
    modifies form
    ensures form[..] == Cleared(old(form[..]))
  {
    var i := 0;
    while i < form.Length
      invariant 0 <= i <= form.Length
      invariant forall k :: 0 <= k < i ==> form[k] == Clear(old(form[k]))
      invariant forall k :: i <= k < form.Length ==> form[k] == old(form[k])
    {
      var input := form[i];
      if IsValidClass in input.classes || IsInvalidClass in input.classes {
        form[i] := input.(classes := input.classes - {IsValidClass, IsInvalidClass});
      }
      i := i + 1;
    }
  }

  // ---------------------------------------------------------------------------
  // The password toggle
  // ---------------------------------------------------------------------------

  /** `pattern` occurs in `s` at `k`. */
  predicate OccursAt(s: string, pattern: string, k: int) {
    0 <= k && k + |pattern| <= |s| && s[k..k + |pattern|] == pattern
  }

  /** An occurrence in the tail is an occurrence one place further on in the whole. */
  lemma OccursShift(s: string, pattern: string, j: nat)
    requires s != []
    ensures OccursAt(s[1..], pattern, j) <==> OccursAt(s, pattern, j + 1)
  {
    if j + |pattern| <= |s| - 1 {
      assert s[1..][j..j + |pattern|] == s[j + 1..j + 1 + |pattern|];
    }
  }

  /** `String.prototype.replace` with a string pattern: only the first occurrence is replaced. */
  function ReplaceFirst(s: string, pattern: string, replacement: string): string
    decreases |s|
  {
    if |pattern| <= |s| && s[..|pattern|] == pattern then replacement + s[|pattern|..]
    else if s == [] then s
    else [s[0]] + ReplaceFirst(s[1..], pattern, replacement)
  }

  /**
   * `ReplaceFirst` replaces the leftmost occurrence and keeps the rest; with no
   * occurrence the string is returned unchanged.
   */
  lemma {:induction false} ReplaceFirstSpec(s: string, pattern: string, replacement: string, k: int)
    requires OccursAt(s, pattern, k)
    requires forall j :: 0 <= j < k ==> !OccursAt(s, pattern, j)
    ensures ReplaceFirst(s, pattern, replacement) == s[..k] + replacement + s[k + |pattern|..]
    decreases |s|
  {
    if k == 0 {
      assert s[..|pattern|] == pattern;
    } else {
      assert !OccursAt(s, pattern, 0);
      forall j | 0 <= j < k - 1 ensures !OccursAt(s[1..], pattern, j) {
        OccursShift(s, pattern, j);
        assert !OccursAt(s, pattern, j + 1);
      }
      var t := s[1..];
      assert ReplaceFirst(s, pattern, replacement) == [s[0]] + ReplaceFirst(t, pattern, replacement);
      OccursShift(s, pattern, k - 1);
      ReplaceFirstSpec(t, pattern, replacement, k - 1);
      assert [s[0]] + t[..k - 1] == s[..k];
      assert t[k - 1 + |pattern|..] == s[k + |pattern|..];
      calc {
        ReplaceFirst(s, pattern, replacement);
        [s[0]] + (t[..k - 1] + replacement + t[k - 1 + |pattern|..]);
        ([s[0]] + t[..k - 1]) + replacement + t[k - 1 + |pattern|..];
        s[..k] + replacement + s[k + |pattern|..];
      }
    }
  }

  /** The no-occurrence half of `ReplaceFirstSpec`. */
  lemma {:induction false} ReplaceFirstAbsent(s: string, pattern: string, replacement: string)
    requires |pattern| > 0
    requires forall j :: 0 <= j <= |s| ==> !OccursAt(s, pattern, j)
    ensures ReplaceFirst(s, pattern, replacement) == s
    decreases |s|
  {
    assert !OccursAt(s, pattern, 0);
    if s != [] {
      forall j | 0 <= j <= |s| - 1 ensures !OccursAt(s[1..], pattern, j) {
        OccursShift(s, pattern, j);
        assert !OccursAt(s, pattern, j + 1);
      }
      ReplaceFirstAbsent(s[1..], pattern, replacement);
    }
  }

  /** The ASCII part of `toLowerCase`. */
  function LowerChar(c: char): char {
    if 'A' <= c <= 'Z' then (c as int + 32) as char else c
  }

  function Lower(s: string): (r: string)
    ensures |r| == |s| && forall k :: 0 <= k < |s| ==> r[k] == LowerChar(s[k])
  {
    seq(|s|, k requires 0 <= k < |s| => LowerChar(s[k]))
  }

  /** The target field id as the handler computes it: the first "toggle" removed, then lower-cased. */
  function TargetIdAsWritten(buttonId: string): string {
    Lower(ReplaceFirst(buttonId, "toggle", ""))
  }

  /** The target id evidently intended: the first "toggle" removed, then only its first letter lower-cased. */
  function TargetId(buttonId: string): string {
    var rest := ReplaceFirst(buttonId, "toggle", "");
    if rest == [] then rest else [LowerChar(rest[0])] + rest[1..]
  }

  /** The two toggle buttons the handler is attached to. */
  const PasswordButtonId := "togglePassword"
  const ConfirmButtonId := "toggleConfirmPassword"

  /** The two password fields of the registration page, as the same script looks them up. */
  const PasswordFieldId := "password"
  const ConfirmFieldId := "confirmPassword"
  const RegistrationFieldIds: set<string> := {PasswordFieldId, ConfirmFieldId}

  /** Removing the first "toggle" from "toggle" followed by a field id leaves the field id. */
  lemma StripToggle(fieldId: string)
    ensures ReplaceFirst("toggle" + fieldId, "toggle", "") == fieldId
  {
    assert ("toggle" + fieldId)[..6] == "toggle";
    assert ("toggle" + fieldId)[6..] == fieldId;
  }

  /** For any button id "toggle" followed by a field id, the intended derivation yields that field id with its first letter lowered. */
  lemma TargetIdStripsPrefix(fieldId: string)
    requires fieldId != []
    ensures TargetId("toggle" + fieldId) == [LowerChar(fieldId[0])] + fieldId[1..]
  {
    StripToggle(fieldId);
  }

  /** As written, the id after "toggle" is lower-cased entirely. */
  lemma TargetIdAsWrittenLowersAll(fieldId: string)
    ensures TargetIdAsWritten("toggle" + fieldId) == Lower(fieldId)
  {
    StripToggle(fieldId);
  }

  /** The button ids are "toggle" followed by a field id with its first letter capitalised. */
  lemma ButtonIdsSplit()
    ensures PasswordButtonId == "toggle" + "Password"
    ensures ConfirmButtonId == "toggle" + "ConfirmPassword"
  {
  }

  /** Lower-casing the capitalised field ids. */
  lemma LowerFieldIds()
    ensures Lower("Password") == PasswordFieldId
    ensures Lower("ConfirmPassword") == "confirmpassword"
    ensures [LowerChar('P')] + "assword" == PasswordFieldId
    ensures [LowerChar('C')] + "onfirmPassword" == ConfirmFieldId
  {
  }

  /** Both derivations send the plain toggle to the "password" field. */
  lemma PasswordToggleFindsItsField()
    ensures TargetIdAsWritten(PasswordButtonId) == PasswordFieldId
    ensures TargetId(PasswordButtonId) == PasswordFieldId
  {
    ButtonIdsSplit();
    LowerFieldIds();
    TargetIdAsWrittenLowersAll("Password");
    TargetIdStripsPrefix("Password");
  }

  /**
   * As written, the confirmation toggle looks for "confirmpassword", which the
   * registration page does not have, so that button never shows the password.
   */
  lemma ConfirmToggleMissesItsField()
    ensures TargetIdAsWritten(ConfirmButtonId) == "confirmpassword"
    ensures TargetIdAsWritten(ConfirmButtonId) !in RegistrationFieldIds
  {
    ButtonIdsSplit();
    LowerFieldIds();
    TargetIdAsWrittenLowersAll("ConfirmPassword");
    assert "confirmpassword"[7] != ConfirmFieldId[7];
  }

  /** The intended derivation sends the confirmation toggle to the "confirmPassword" field. */
  lemma ConfirmToggleFindsItsField()
    ensures TargetId(ConfirmButtonId) == ConfirmFieldId
  {
    ButtonIdsSplit();
    LowerFieldIds();
    TargetIdStripsPrefix("ConfirmPassword");
  }

  /** The icon class that goes with a field type. */
  function IconFor(inputType: string): string {
    if inputType == "text" then "bi bi-eye-slash" else "bi bi-eye"
  }

  /** The field type and icon class after a click on a field of type `inputType`. */
  function Flipped(inputType: string): (string, string) {
    if inputType == "password" then ("text", "bi bi-eye-slash") else ("password", "bi bi-eye")
  }

  /**
   * A click swaps "password" and "text", always leaves the icon matching the new
   * type, and two clicks restore both the type and its icon.
   */
  lemma ClickFlips(inputType: string)
    ensures Flipped(inputType).1 == IconFor(Flipped(inputType).0)
    ensures Flipped(inputType).0 == "text" <==> inputType == "password"
    ensures inputType in {"password", "text"} ==>
      Flipped(Flipped(inputType).0) == (inputType, IconFor(inputType))
  {
  }

  /** The password input. */
  class PasswordField {
    var inputType: string

    constructor (inputType: string)
      ensures this.inputType == inputType
    {
      this.inputType := inputType;
    }
  }

  /** The `<i>` inside the toggle button. */
  class Icon {
    var className: string

    constructor (className: string)
      ensures this.className == className
    {
      this.className := className;
    }
  }

  /**
   * The click handler once the field has been looked up by its id and the icon
   * found in the button: with both present it flips them; with either missing it
   * does nothing.
   */
  method ToggleClick(passwordField: PasswordField?, icon: Icon?)
    modifies passwordField, icon
    ensures passwordField != null && icon != null ==>
      (passwordField.inputType, icon.className) == Flipped(old(passwordField.inputType))
    ensures passwordField == null || icon == null ==>
      (passwordField != null ==> passwordField.inputType == old(passwordField.inputType))
      && (icon != null ==> icon.className == old(icon.className))
  {
    if passwordField != null && icon != null {
      if passwordField.inputType == "password" {
        passwordField.inputType := "text";
        icon.className := "bi bi-eye-slash";
      } else {
        passwordField.inputType := "password";
        icon.className := "bi bi-eye";
      }
    }
  }
}
