/** `other_attendees` and `check`: reading the comma-separated attendee
    field of the booking form, and validating one e-mail address. The lemmas
    named `CheckAccepts...` and `CheckRefuses...` are single-input examples
    of the general facts `CheckIsFullMatch` and `CheckAccepted`. */
module Emails {
  import opened Wrappers
  import opened Strings

  // ---- other_attendees ----

  /** `other_attendees(emails)`: no field gives no list; a field with a
      comma is split on commas; a field without one becomes the list of its
      characters (`list(emails)`). */
  function OtherAttendees(emails: Option<string>): (r: Option<seq<string>>)
    ensures r.Some? <==> emails.Some?
  {
    match emails
    case None => None
    case Some(e) => if Contains(e, ",") then Some(Split(e, ",")) else Some(Chars(e))
  }

  /** With a comma: one entry per comma plus one, none holding a comma, and
      joined with commas they give the field back. */
  lemma OtherAttendeesCommaList(e: string)
    requires ',' in e
    ensures var r := OtherAttendees(Some(e)).value;
      && |r| == multiset(e)[','] + 1
      && (forall j :: 0 <= j < |r| ==> ',' !in r[j])
      && Join(r, ",") == e
  {
    ContainsChar(e, ',');
    var r := Split(e, ",");
    SplitCharCount(e, ',');
    SplitPiecesAvoidSep(e, ",");
    forall j | 0 <= j < |r|
      ensures ',' !in r[j]
    {
      ContainsChar(r[j], ',');
    }
    JoinSplit(e, ",");
  }

  /** Without a comma: one single-character entry per character, in order,
      which joined give the field back. */
  lemma OtherAttendeesCharList(e: string)
    requires ',' !in e
    ensures var r := OtherAttendees(Some(e)).value;
      && |r| == |e|
      && (forall i :: 0 <= i < |e| ==> r[i] == [e[i]])
      && Join(r, "") == e
  {
    ContainsChar(e, ',');
    JoinChars(e);
  }

  // ---- check ----

  predicate Letter(c: char) {
    'A' <= c <= 'Z' || 'a' <= c <= 'z'
  }

  predicate DecimalDigit(c: char) {
    '0' <= c <= '9'
  }

  /** `[A-Za-z0-9._%+-]`, the characters of the part before `@`. */
  predicate LocalChar(c: char) {
    Letter(c) || DecimalDigit(c) || c in "._%+-"
  }

  /** `[A-Za-z0-9.-]`, the characters of the domain. */
  predicate DomainChar(c: char) {
    Letter(c) || DecimalDigit(c) || c == '.' || c == '-'
  }

  /** `[A-Z|a-z]`, the characters of the top-level domain (the class holds
      a literal `|`). */
  predicate TopLevelChar(c: char) {
    Letter(c) || c == '|'
  }

  /** `\w` on the characters the classes above admit. */
  predicate WordChar(c: char) {
    Letter(c) || DecimalDigit(c) || c == '_'
  }

  /** `s` matches the pattern in full with the `@` at `at` and the dot
      before the top-level domain at `dot`: one or more local characters,
      `@`, one or more domain characters, `.`, two or more top-level
      characters, and a word boundary at each end (at the ends of the
      string, `\b` needs a word character there). */
  predicate EmailSplit(s: string, at: int, dot: int) {
    && 0 < at && at + 1 < dot && dot + 3 <= |s|
    && s[at] == '@' && s[dot] == '.'
    && (forall i :: 0 <= i < at ==> LocalChar(s[i]))
    && (forall i :: at < i < dot ==> DomainChar(s[i]))
    && (forall i :: dot < i < |s| ==> TopLevelChar(s[i]))
    && WordChar(s[0]) && WordChar(s[|s| - 1])
  }

  /** `re.fullmatch` of the pattern, which may place `@` and `.` anywhere. */
  ghost predicate FullMatch(s: string) {
    exists at, dot :: EmailSplit(s, at, dot)
  }

  /** The last index of `c` in `s`. */
  function LastIndex(s: string, c: char): (r: Option<nat>)
    ensures r.Some? ==> r.value < |s| && s[r.value] == c
    ensures r.Some? ==> forall k :: r.value < k < |s| ==> s[k] != c
    ensures r.None? ==> c !in s
  {
    if |s| == 0 then None
    else if s[|s| - 1] == c then Some(|s| - 1)
    else LastIndex(s[..|s| - 1], c)
  }

  /** The matcher: since no local character is `@` and no top-level
      character is `.`, only the first `@` and the last `.` can split a
      match. */
  predicate Matches(s: string) {
    match Find(s, "@", 0)
    case None => false
    case Some(at) =>
      match LastIndex(s, '.')
      case None => false
      case Some(dot) => EmailSplit(s, at, dot)
  }

  /** `check(email)`: the address when it matches, otherwise nothing. */
  function Check(email: string): (r: Option<string>)
    ensures r.Some? ==> r.value == email
  {
    if Matches(email) then Some(email) else None
  }

  /** The matcher accepts exactly the full matches of the pattern. */
  lemma CheckIsFullMatch(s: string)
    ensures Check(s).Some? <==> FullMatch(s)
  {
    if FullMatch(s) {
      var at, dot :| EmailSplit(s, at, dot);
      assert s[at..at + 1] == "@";
      assert OccursAt(s, "@", at);
      var first := Find(s, "@", 0);
      assert first.Some?;
      assert s[first.value..first.value + 1] == "@";
      assert s[first.value] == '@';
      assert first.value == at;
      var last := LastIndex(s, '.');
      assert last.Some?;
      assert last.value == dot;
    }
  }

  /** In a full match the `@` at `at` is the only one. */
  lemma OnlyAt(s: string, at: int, dot: int, i: int)
    requires EmailSplit(s, at, dot)
    requires 0 <= i < |s| && s[i] == '@'
    ensures i == at
  {
  }

  /** What an accepted address looks like: exactly one `@`, with a word
      character first; the text after the last `.` has two or more
      characters, all letters or `|`, and ends in a letter. */
  lemma CheckAccepted(s: string)
    requires Check(s).Some?
    ensures '@' in s
    ensures forall i, j :: 0 <= i < j < |s| && s[i] == '@' ==> s[j] != '@'
    ensures WordChar(s[0])
    ensures LastIndex(s, '.').Some?
    ensures var dot := LastIndex(s, '.').value;
      && |s| - dot - 1 >= 2
      && (forall i :: dot < i < |s| ==> TopLevelChar(s[i]))
      && Letter(s[|s| - 1])
  {
    var at := Find(s, "@", 0).value;
    var dot := LastIndex(s, '.').value;
    assert EmailSplit(s, at, dot);
    forall i, j | 0 <= i < j < |s| && s[i] == '@'
      ensures s[j] != '@'
    {
      OnlyAt(s, at, dot, i);
      if s[j] == '@' {
        OnlyAt(s, at, dot, j);
      }
    }
  }

  /** A plain address is accepted. */
  lemma CheckAcceptsPlainAddress()
    ensures Check("ann@mail.com") == Some("ann@mail.com")
  {
    assert EmailSplit("ann@mail.com", 3, 8);
    CheckIsFullMatch("ann@mail.com");
  }

  /** A one-letter top-level domain is refused. */
  lemma CheckRefusesShortTopLevel()
    ensures Check("a@b.c").None?
  {
    CheckIsFullMatch("a@b.c");
  }

  /** A trailing `|` is a top-level character but not a word character. */
  lemma CheckRefusesTrailingBar()
    ensures Check("a@b.cd|").None?
  {
    CheckIsFullMatch("a@b.cd|");
  }

  /** A leading `.` is a local character but not a word character. */
  lemma CheckRefusesLeadingDot()
    ensures Check(".a@b.cd").None?
  {
    CheckIsFullMatch(".a@b.cd");
  }

  /** A second `@` is neither a local nor a domain character. */
  lemma CheckRefusesTwoAts()
    ensures Check("a@@b.cd").None?
  {
    var s := "a@@b.cd";
    CheckIsFullMatch(s);
    if FullMatch(s) {
      var at, dot :| EmailSplit(s, at, dot);
      assert s[1] == '@' && s[2] == '@';
      OnlyAt(s, at, dot, 1);
      OnlyAt(s, at, dot, 2);
      assert false;
    }
  }
}
