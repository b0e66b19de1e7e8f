/**
 * The rules of the contact form: JavaScript's `trim`, the e-mail pattern
 * `^[^\s@]+@[^\s@]+\.[^\s@]+$` written out by hand, and the per-field rules
 * used on submit (`validateForm`) and on blur (`validateField`).
 */
module FormValidation {

  /**
   * The characters `String.prototype.trim` strips and the regular-expression
   * class `\s` matches: ECMAScript WhiteSpace and LineTerminator.
   */
  predicate IsJsSpace(c: char)
  {
    c in JsSpaces
  }

  const JsSpaces: set<char> := {
    '\t', '\n', '\U{000B}', '\U{000C}', '\r', ' ', '\U{00A0}', '\U{1680}',
    '\U{2000}', '\U{2001}', '\U{2002}', '\U{2003}', '\U{2004}', '\U{2005}',
    '\U{2006}', '\U{2007}', '\U{2008}', '\U{2009}', '\U{200A}',
    '\U{2028}', '\U{2029}', '\U{202F}', '\U{205F}', '\U{3000}', '\U{FEFF}'
  }

  predicate AllSpace(s: string)
  {
    forall k :: 0 <= k < |s| ==> IsJsSpace(s[k])
  }

  predicate NoSpace(s: string)
  {
    forall k :: 0 <= k < |s| ==> !IsJsSpace(s[k])
  }

  /** The number of white-space characters `s` starts with. */
  function LeadingSpaces(s: string): (n: nat)
    ensures n <= |s|
  {
    if |s| > 0 && IsJsSpace(s[0]) then 1 + LeadingSpaces(s[1..]) else 0
  }

  /** `LeadingSpaces` counts a white-space prefix that cannot be extended. */
  lemma {:induction false} LeadingSpacesSpec(s: string)
    ensures AllSpace(s[..LeadingSpaces(s)])
    ensures LeadingSpaces(s) < |s| ==> !IsJsSpace(s[LeadingSpaces(s)])
  {
    if |s| > 0 && IsJsSpace(s[0]) {
      LeadingSpacesSpec(s[1..]);
      var n := LeadingSpaces(s);
      assert s[..n] == [s[0]] + s[1..][..n - 1];
    }
  }

  /** The number of white-space characters `s` ends with. */
  function TrailingSpaces(s: string): (n: nat)
    ensures n <= |s|
  {
    if |s| > 0 && IsJsSpace(s[|s| - 1]) then 1 + TrailingSpaces(s[..|s| - 1]) else 0
  }

  /** `TrailingSpaces` counts a white-space suffix that cannot be extended. */
  lemma {:induction false} TrailingSpacesSpec(s: string)
    ensures AllSpace(s[|s| - TrailingSpaces(s)..])
    ensures TrailingSpaces(s) < |s| ==> !IsJsSpace(s[|s| - TrailingSpaces(s) - 1])
  {
    if |s| > 0 && IsJsSpace(s[|s| - 1]) {
      TrailingSpacesSpec(s[..|s| - 1]);
      var n := TrailingSpaces(s);
      assert s[|s| - n..] == s[..|s| - 1][|s| - n..] + [s[|s| - 1]];
    }
  }

  /** `s.trim()`: `s` without the white space at both ends. */
  function Trim(s: string): (r: string)
    ensures |r| <= |s|
  {
    var rest := s[LeadingSpaces(s)..];
    rest[..|rest| - TrailingSpaces(rest)]
  }

  /**
   * What `trim` keeps is the middle of `s` that starts and ends with a
   * non-space character; everything it cuts off is white space.
   */
  lemma TrimSpec(s: string)
    ensures LeadingSpaces(s) + |Trim(s)| <= |s|
    ensures Trim(s) == s[LeadingSpaces(s)..LeadingSpaces(s) + |Trim(s)|]
    ensures AllSpace(s[..LeadingSpaces(s)]) && AllSpace(s[LeadingSpaces(s) + |Trim(s)|..])
    ensures |Trim(s)| > 0 ==> !IsJsSpace(Trim(s)[0]) && !IsJsSpace(Trim(s)[|Trim(s)| - 1])
  {
    TrimIsMiddle(s);
    TrimCutsSpace(s);
    TrimEnds(s);
  }

  lemma TrimIsMiddle(s: string)
    ensures LeadingSpaces(s) + |Trim(s)| <= |s|
    ensures Trim(s) == s[LeadingSpaces(s)..LeadingSpaces(s) + |Trim(s)|]
  {
    var a := LeadingSpaces(s);
    var r := Trim(s);
    assert r == s[a..][..|r|];
  }

  lemma TrimCutsSpace(s: string)
    ensures AllSpace(s[..LeadingSpaces(s)]) && AllSpace(s[LeadingSpaces(s) + |Trim(s)|..])
  {
    var a := LeadingSpaces(s);
    var rest := s[a..];
    var t := TrailingSpaces(rest);
    LeadingSpacesSpec(s);
    TrailingSpacesSpec(rest);
    assert s[a + |Trim(s)|..] == rest[|rest| - t..];
  }

  lemma TrimEnds(s: string)
    ensures |Trim(s)| > 0 ==> !IsJsSpace(Trim(s)[0]) && !IsJsSpace(Trim(s)[|Trim(s)| - 1])
  {
    var a := LeadingSpaces(s);
    var rest := s[a..];
    var t := TrailingSpaces(rest);
    var r := Trim(s);
    LeadingSpacesSpec(s);
    TrailingSpacesSpec(rest);
    if |r| > 0 {
      assert r[0] == s[a];
      assert r[|r| - 1] == rest[|rest| - t - 1];
    }
  }

  /** A string with no white space is its own trim. */
  lemma TrimNoSpace(s: string)
    requires NoSpace(s)
    ensures Trim(s) == s
  {
    if |s| > 0 {
      assert !IsJsSpace(s[|s| - 1]);
    }
  }

  /** Trimming twice is trimming once. */
  lemma TrimIdempotent(s: string)
    ensures Trim(Trim(s)) == Trim(s)
  {
    var r := Trim(s);
    TrimSpec(s);
    if |r| > 0 {
      assert LeadingSpaces(r) == 0;
      assert TrailingSpaces(r) == 0;
    }
  }

  /** The index of the first `c` in `s`, or `|s|` when there is none (`indexOf` with -1 read as `|s|`). */
  function FirstIndex(s: string, c: char): (i: nat)
    ensures i <= |s|
  {
    if |s| == 0 || s[0] == c then 0 else 1 + FirstIndex(s[1..], c)
  }

  /** `FirstIndex` finds the first occurrence. */
  lemma {:induction false} FirstIndexSpec(s: string, c: char)
    ensures c !in s[..FirstIndex(s, c)]
    ensures FirstIndex(s, c) < |s| ==> s[FirstIndex(s, c)] == c
  {
    if |s| > 0 && s[0] != c {
      FirstIndexSpec(s[1..], c);
      var i := FirstIndex(s, c);
      assert s[..i] == [s[0]] + s[1..][..i - 1];
    }
  }

  /** One `[^\s@]+` of the pattern. */
  predicate Atom(s: string)
  {
    |s| > 0 && forall k :: 0 <= k < |s| ==> !IsJsSpace(s[k]) && s[k] != '@'
  }

  /**
   * The regular expression read as a concatenation: an atom up to the `@` at
   * `i`, an atom up to the literal `.` at `j`, an atom to the end.
   */
  ghost predicate SplitsAt(s: string, i: int, j: int)
  {
    0 < i && i + 1 < j && j + 1 < |s| && s[i] == '@' && s[j] == '.' &&
    Atom(s[..i]) && Atom(s[i + 1..j]) && Atom(s[j + 1..])
  }

  /** `^[^\s@]+@[^\s@]+\.[^\s@]+$` matches `s`. */
  ghost predicate MatchesEmailPattern(s: string)
  {
    exists i, j :: SplitsAt(s, i, j)
  }

  /**
   * `isValidEmail`, computed: no white space at all, exactly one `@` and not
   * in front, and after it a `.` that is neither its first nor its last
   * character.
   */
  function IsValidEmail(s: string): (ok: bool)
    ensures ok ==> NoSpace(s)
  {
    var at := FirstIndex(s, '@');
    NoSpace(s) && 0 < at && at + 4 <= |s| && '@' !in s[at + 1..] && '.' in s[at + 2..|s| - 1]
  }

  /** The computed check accepts exactly the strings the pattern matches. */
  lemma IsValidEmailMatchesPattern(s: string)
    ensures IsValidEmail(s) <==> MatchesEmailPattern(s)
  {
    if IsValidEmail(s) {
      EmailCheckSound(s);
    }
    if MatchesEmailPattern(s) {
      var i, j :| SplitsAt(s, i, j);
      EmailCheckComplete(s, i, j);
    }
  }

  /** An accepted string splits as the pattern demands, at its `@` and an inner `.` of the domain. */
  lemma EmailCheckSound(s: string)
    requires IsValidEmail(s)
    ensures MatchesEmailPattern(s)
  {
    var at := FirstIndex(s, '@');
    FirstIndexSpec(s, '@');
    var j := DotIn(s, at + 2, |s| - 1);
    SplitAtDot(s, at, j);
  }

  /** The position of a `.` in `s[lo..hi]`. */
  lemma DotIn(s: string, lo: int, hi: int) returns (j: int)
    requires 0 <= lo <= hi <= |s| && '.' in s[lo..hi]
    ensures lo <= j < hi && s[j] == '.'
  {
    var m :| 0 <= m < hi - lo && s[lo..hi][m] == '.';
    j := lo + m;
  }

  /** With no space and no other `@`, an `@` and a later inner `.` split `s` as the pattern demands. */
  lemma SplitAtDot(s: string, at: int, j: int)
    requires NoSpace(s) && 0 < at && at + 1 < j && j + 1 < |s|
    requires s[at] == '@' && s[j] == '.'
    requires '@' !in s[..at] && '@' !in s[at + 1..]
    ensures SplitsAt(s, at, j) && MatchesEmailPattern(s)
  {
    assert s[0..at] == s[..at];
    AtomSlice(s, 0, at);
    assert s[at + 1..j] == s[at + 1..][..j - at - 1];
    AtomSlice(s, at + 1, j);
    assert s[j + 1..|s|] == s[at + 1..][j - at..];
    AtomSlice(s, j + 1, |s|);
    assert s[j + 1..|s|] == s[j + 1..];
  }

  /** A string the pattern matches passes every part of the computed check. */
  lemma EmailCheckComplete(s: string, i: int, j: int)
    requires SplitsAt(s, i, j)
    ensures IsValidEmail(s)
  {
    var at := FirstIndex(s, '@');
    FirstIndexSpec(s, '@');
    PatternParts(s, i, j);
    assert at == i;
    assert '@' !in s[at + 1..];
    assert s[at + 2..|s| - 1][j - i - 2] == '.';
  }

  /** A non-empty stretch free of white space and `@` is an atom. */
  lemma AtomSlice(s: string, lo: int, hi: int)
    requires NoSpace(s) && 0 <= lo < hi <= |s|
    requires '@' !in s[lo..hi]
    ensures Atom(s[lo..hi])
  {
    forall k | 0 <= k < hi - lo
      ensures !IsJsSpace(s[lo..hi][k]) && s[lo..hi][k] != '@'
    {
      assert s[lo..hi][k] == s[lo + k];
    }
  }

  /** The characters of a pattern match: atoms around one `@` and one `.`. */
  lemma PatternParts(s: string, i: int, j: int)
    requires SplitsAt(s, i, j)
    ensures NoSpace(s)
    ensures forall k :: 0 <= k < |s| && k != i ==> s[k] != '@'
  {
    forall k | 0 <= k < |s|
      ensures !IsJsSpace(s[k]) && (k != i ==> s[k] != '@')
    {
      if k < i {
        assert s[k] == s[..i][k];
      } else if i < k < j {
        assert s[k] == s[i + 1..j][k - i - 1];
      } else if j < k {
        assert s[k] == s[j + 1..][k - j - 1];
      }
    }
  }

  /** The four named inputs of the contact form. */
  datatype Field = Name | Email | Subject | Message

  /** The values the form submits, as `Object.fromEntries(new FormData(form))` gives them. */
  datatype FormData = FormData(name: string, email: string, subject: string, message: string)
  {
    function Get(f: Field): (value: string)
    {
      match f
      case Name => name
      case Email => email
      case Subject => subject
      case Message => message
    }

    function With(f: Field, value: string): (d: FormData)
      ensures d.Get(f) == value
      ensures forall g :: g != f ==> d.Get(g) == Get(g)
    {
      match f
      case Name => this.(name := value)
      case Email => this.(email := value)
      case Subject => this.(subject := value)
      case Message => this.(message := value)
    }
  }

  /**
   * The `length` JavaScript reports for a string: it counts UTF-16 code units,
   * so a character outside the Basic Multilingual Plane counts twice.
   */
  function Utf16Length(s: string): (n: nat)
    ensures |s| <= n <= 2 * |s|
  {
    if |s| == 0 then 0 else Utf16Length(s[..|s| - 1]) + (if s[|s| - 1] > '\U{FFFF}' then 2 else 1)
  }

  /** Over the Basic Multilingual Plane the code-unit count is the character count. */
  lemma {:induction false} Utf16LengthOfBmp(s: string)
    requires forall i :: 0 <= i < |s| ==> s[i] <= '\U{FFFF}'
    ensures Utf16Length(s) == |s|
  {
    if |s| > 0 {
      Utf16LengthOfBmp(s[..|s| - 1]);
    }
  }

  /** One emoji is two code units long: it meets the two-character minimum of the name field. */
  lemma EmojiNameLength()
    ensures Utf16Length("\U{1F600}") == 2 && |"\U{1F600}"| == 1
    ensures SubmitFieldOk(Name, "\U{1F600}")
  {
    var e := "\U{1F600}";
    assert LeadingSpaces(e) == 0 && TrailingSpaces(e) == 0;
    assert Trim(e) == e;
  }

  /** The minimum trimmed length of the three free-text fields. */
  function MinLength(f: Field): (n: nat)
  {
    match f
    case Name => 2
    case Email => 0
    case Subject => 3
    case Message => 10
  }

  /** The check `validateForm` makes: `!value || ...`; the e-mail is checked untrimmed. */
  predicate SubmitFieldOk(f: Field, value: string)
  {
    match f
    case Email => !(|value| == 0 || !IsValidEmail(value))
    case _ => !(|value| == 0 || Utf16Length(Trim(value)) < MinLength(f))
  }

  /** The check `validateField` makes, on the trimmed value. */
  predicate BlurFieldOk(f: Field, value: string)
  {
    var v := Trim(value);
    match f
    case Email => IsValidEmail(v)
    case _ => Utf16Length(v) >= MinLength(f)
  }

  /** The fields `validateForm` reports an error for. */
  function FailingFields(data: FormData): (failing: set<Field>)
  {
    set f | f in {Name, Email, Subject, Message} && !SubmitFieldOk(f, data.Get(f))
  }

  /** The verdict of `validateForm`: the conjunction of the four checks. */
  predicate FormValid(data: FormData)
  {
    && SubmitFieldOk(Name, data.Get(Name))
    && SubmitFieldOk(Email, data.Get(Email))
    && SubmitFieldOk(Subject, data.Get(Subject))
    && SubmitFieldOk(Message, data.Get(Message))
  }

  /** A field is reported exactly when its own check fails. */
  lemma FailingFieldsExact(data: FormData, f: Field)
    ensures f in FailingFields(data) <==> !SubmitFieldOk(f, data.Get(f))
  {
    match f
    case Name =>
    case Email =>
    case Subject =>
    case Message =>
  }

  /** The form is valid exactly when no field is reported. */
  lemma ValidIffNothingFails(data: FormData)
    ensures FormValid(data) <==> FailingFields(data) == {}
  {
    if !FormValid(data) {
      var f :| !SubmitFieldOk(f, data.Get(f));
      FailingFieldsExact(data, f);
    }
  }

  /** The form is valid exactly when each of the four rules holds. */
  lemma FormValidRules(data: FormData)
    ensures FormValid(data) <==>
      && Utf16Length(Trim(data.name)) >= 2
      && IsValidEmail(data.email)
      && Utf16Length(Trim(data.subject)) >= 3
      && Utf16Length(Trim(data.message)) >= 10
  {
  }

  /** For the three free-text fields the submit check and the blur check agree. */
  lemma TextRulesAgree(f: Field, value: string)
    requires f != Email
    ensures SubmitFieldOk(f, value) <==> BlurFieldOk(f, value)
  {
  }

  /** Every address the submit check accepts, the blur check accepts too. */
  lemma EmailSubmitImpliesBlur(value: string)
    ensures SubmitFieldOk(Email, value) ==> BlurFieldOk(Email, value)
  {
    if SubmitFieldOk(Email, value) {
      IsValidEmailMatchesPattern(value);
      var i, j :| SplitsAt(value, i, j);
      PatternParts(value, i, j);
      TrimNoSpace(value);
    }
  }

  /** The converse fails: white space around an address passes on blur and fails on submit. */
  lemma EmailRulesDiffer()
    ensures BlurFieldOk(Email, " a@b.com") && !SubmitFieldOk(Email, " a@b.com")
  {
    var w := " a@b.com";
    PaddedSampleTrims(w);
    SampleAddressValid(w[1..]);
    assert !NoSpace(w) by {
      assert IsJsSpace(w[0]);
    }
  }

  lemma PaddedSampleTrims(w: string)
    requires w == " a@b.com"
    ensures Trim(w) == w[1..]
  {
    var e := w[1..];
    assert LeadingSpaces(e) == 0 && LeadingSpaces(w) == 1;
    assert TrailingSpaces(e) == 0 by {
      assert !IsJsSpace(e[|e| - 1]);
    }
  }

  /** A draft with every field too short or malformed fails all four rules. */
  lemma ShortDraftFailsEverywhere()
    ensures FailingFields(FormData("A", "bad", "Hi", "short")) == {Name, Email, Subject, Message}
  {
    var d := FormData("A", "bad", "Hi", "short");
    ShortNameFails(d.name);
    BadAddressFails(d.email);
    ShortSubjectFails(d.subject);
    ShortMessageFails(d.message);
    AllFieldsFail(d);
  }

  lemma AllFieldsFail(d: FormData)
    requires !SubmitFieldOk(Name, d.name) && !SubmitFieldOk(Email, d.email)
    requires !SubmitFieldOk(Subject, d.subject) && !SubmitFieldOk(Message, d.message)
    ensures FailingFields(d) == {Name, Email, Subject, Message}
  {
    forall f: Field
      ensures f in FailingFields(d)
    {
      FailingFieldsExact(d, f);
    }
  }

  lemma BadAddressFails(s: string)
    requires s == "bad"
    ensures !SubmitFieldOk(Email, s)
  {
    assert !MatchesEmailPattern(s) by {
      assert FirstIndex("bad", '@') == 3;
    }
  }

  lemma ShortNameFails(s: string)
    requires s == "A"
    ensures !SubmitFieldOk(Name, s)
  {
    NoSpaceTrimmed(s, 1);
  }

  lemma ShortSubjectFails(s: string)
    requires s == "Hi"
    ensures !SubmitFieldOk(Subject, s)
  {
    NoSpaceTrimmed(s, 2);
  }

  lemma ShortMessageFails(s: string)
    requires s == "short"
    ensures !SubmitFieldOk(Message, s)
  {
    NoSpaceTrimmed(s, 5);
  }

  /** A well-formed draft passes all four rules. */
  lemma GoodDraftPasses(d: FormData)
    requires d == FormData("Aya H", "a@b.com", "Hello there", "This is a sufficiently long message.")
    ensures FormValid(d)
  {
    SampleTextsLongEnough(d);
    SampleAddressValid(d.email);
    FormValidRules(d);
  }

  lemma SampleTextsLongEnough(d: FormData)
    requires d == FormData("Aya H", "a@b.com", "Hello there", "This is a sufficiently long message.")
    ensures Utf16Length(Trim(d.name)) >= 2 && Utf16Length(Trim(d.subject)) >= 3 && Utf16Length(Trim(d.message)) >= 10
  {
    SampleNameLongEnough(d.name);
    SampleSubjectLongEnough(d.subject);
    SampleMessageLongEnough(d.message);
  }

  lemma SampleNameLongEnough(s: string)
    requires s == "Aya H"
    ensures Utf16Length(Trim(s)) >= 2
  {
    NoSpaceTrimmed(s, 2);
  }

  lemma SampleSubjectLongEnough(s: string)
    requires s == "Hello there"
    ensures Utf16Length(Trim(s)) >= 3
  {
    NoSpaceTrimmed(s, 3);
  }

  lemma SampleMessageLongEnough(s: string)
    requires s == "This is a sufficiently long message."
    ensures Utf16Length(Trim(s)) >= 10
  {
    NoSpaceTrimmed(s, 10);
  }

  lemma SampleAddressValid(e: string)
    requires e == "a@b.com"
    ensures IsValidEmail(e)
  {
    assert e[..1] == "a" && e[2..3] == "b" && e[4..] == "com";
    assert Atom("a") && Atom("b") && Atom("com");
    assert e[1] == '@' && e[3] == '.';
    EmailCheckComplete(e, 1, 3);
  }

  /** A value whose first and last characters are not white space keeps its length under `trim`. */
  lemma NoSpaceTrimmed(s: string, n: nat)
    requires 0 < n <= |s| && !IsJsSpace(s[0]) && !IsJsSpace(s[|s| - 1])
    ensures |Trim(s)| >= n && Utf16Length(Trim(s)) >= n
  {
    assert LeadingSpaces(s) == 0;
    assert TrailingSpaces(s) == 0;
  }
}
