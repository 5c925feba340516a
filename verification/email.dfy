/** The `Email` value object (dmn/src/value_objects/email/mod.rs): a string accepted by the
    pattern `^[a-zA-Z0-9.!#$%&'*+/=?^_`{|}~-]+@[a-zA-Z0-9-]+(\.[a-zA-Z0-9-]+)+$`. */
module EmailAddress {
  import opened Common
  import Tables

  /** Only `TryFromString` builds one, so the text always matches the pattern. */
  datatype Email = Email(text: string)

  predicate IsLocalChar(c: char) {
    || ('a' <= c <= 'z')
    || ('A' <= c <= 'Z')
    || ('0' <= c <= '9')
    || c in ".!#$%&'*+/=?^_`{|}~-"
  }

  predicate IsAt(c: char) {
    c == '@'
  }

  predicate IsDot(c: char) {
    c == '.'
  }

  predicate IsLabelChar(c: char) {
    ('a' <= c <= 'z') || ('A' <= c <= 'Z') || ('0' <= c <= '9') || c == '-'
  }

  /** `[a-zA-Z0-9.!#$%&'*+/=?^_`{|}~-]+` */
  predicate IsLocalPart(s: string) {
    |s| > 0 && forall k :: 0 <= k < |s| ==> IsLocalChar(s[k])
  }

  /** `[a-zA-Z0-9-]+(\.[a-zA-Z0-9-]+)+`, checked character by character: labels and dots
      only, no dot at either end, no two dots in a row, at least one dot. */
  predicate IsDomain(d: string) {
    && |d| > 0
    && d[0] != '.'
    && d[|d| - 1] != '.'
    && (forall k :: 0 <= k < |d| ==> IsLabelChar(d[k]) || d[k] == '.')
    && (forall k :: 0 <= k < |d| - 1 ==> d[k] == '.' ==> d[k + 1] != '.')
    && (exists k :: 0 <= k < |d| && d[k] == '.')
  }

  /** `is_valid_email`: the local part runs up to the first '@', the domain follows it. */
  predicate IsValidEmail(s: string) {
    match Tables.FirstIndex(s, IsAt)
    case None => false
    case Some(i) => IsLocalPart(s[..i]) && IsDomain(s[i + 1..])
  }

  // The pattern itself, read as a grammar, is the reference `IsValidEmail` is proved against.

  /** `[a-zA-Z0-9-]+` */
  ghost predicate IsLabel(l: string) {
    |l| > 0 && forall k :: 0 <= k < |l| ==> IsLabelChar(l[k])
  }

  /** `(\.[a-zA-Z0-9-]+)+` */
  ghost predicate DotLabels(d: string)
    decreases |d|
  {
    exists k :: 1 < k <= |d| && d[0] == '.' && IsLabel(d[1..k]) && (k == |d| || DotLabels(d[k..]))
  }

  /** The whole pattern, anchored at both ends. */
  ghost predicate MatchesPattern(s: string) {
    exists i, j :: 0 <= i < j <= |s| && IsLocalPart(s[..i]) && s[i] == '@' && IsLabel(s[i + 1..j]) && DotLabels(s[j..])
  }

  /** The character-level shape of `(\.[a-zA-Z0-9-]+)+`. */
  predicate IsDotTail(d: string) {
    && |d| >= 2
    && d[0] == '.'
    && d[|d| - 1] != '.'
    && (forall k :: 0 <= k < |d| ==> IsLabelChar(d[k]) || d[k] == '.')
    && (forall k :: 0 <= k < |d| - 1 ==> d[k] == '.' ==> d[k + 1] != '.')
  }

  lemma {:induction false} DotLabelsIsDotTail(d: string)
    ensures DotLabels(d) <==> IsDotTail(d)
    decreases |d|
  {
    if DotLabels(d) {
      var k :| 1 < k <= |d| && d[0] == '.' && IsLabel(d[1..k]) && (k == |d| || DotLabels(d[k..]));
      assert forall m :: 1 <= m < k ==> d[m] == d[1..k][m - 1];
      if k < |d| {
        DotLabelsIsDotTail(d[k..]);
        assert forall m :: k <= m < |d| ==> d[m] == d[k..][m - k];
      }
    }
    if IsDotTail(d) {
      var rest := d[1..];
      var k := match Tables.FirstIndex(rest, IsDot) case None => |d| case Some(n) => n + 1;
      assert forall m :: 1 <= m < k ==> d[m] == rest[m - 1] && d[m] != '.';
      assert IsLabel(d[1..k]) by {
        forall m | 0 <= m < k - 1
          ensures IsLabelChar(d[1..k][m])
        {
          assert d[1..k][m] == d[m + 1];
        }
      }
      if k < |d| {
        var tail := d[k..];
        assert d[k] == '.';
        assert forall m :: 0 <= m < |tail| ==> tail[m] == d[k + m];
        assert IsDotTail(tail);
        DotLabelsIsDotTail(tail);
      }
      assert DotLabels(d);
    }
  }

  /** A domain is one label followed by a dot tail. */
  lemma DomainSplits(d: string)
    requires IsDomain(d)
    ensures exists j :: 0 < j < |d| && IsLabel(d[..j]) && IsDotTail(d[j..])
  {
    var j := match Tables.FirstIndex(d, IsDot) case None => 0 case Some(n) => n;
    assert d[j] == '.';
    assert forall m :: 0 <= m < j ==> d[m] != '.';
    assert IsLabel(d[..j]) by {
      forall m | 0 <= m < j
        ensures IsLabelChar(d[..j][m])
      {
        assert d[..j][m] == d[m];
      }
    }
    assert 0 < j < |d| - 1;
    var tail := d[j..];
    assert |tail| >= 2 && tail[0] == '.' && tail[|tail| - 1] == d[|d| - 1];
    forall m | 0 <= m < |tail|
      ensures IsLabelChar(tail[m]) || tail[m] == '.'
    {
      assert tail[m] == d[j + m];
    }
    forall m | 0 <= m < |tail| - 1
      ensures tail[m] == '.' ==> tail[m + 1] != '.'
    {
      assert tail[m] == d[j + m] && tail[m + 1] == d[j + m + 1];
    }
  }

  /** One label followed by a dot tail is a domain. */
  lemma DomainJoins(d: string, j: int)
    requires 0 < j < |d| && IsLabel(d[..j]) && IsDotTail(d[j..])
    ensures IsDomain(d)
  {
    assert forall m :: 0 <= m < j ==> d[m] == d[..j][m];
    assert forall m :: j <= m < |d| ==> d[m] == d[j..][m - j];
  }

  lemma ValidEmailIsMatch(s: string)
    requires IsValidEmail(s)
    ensures MatchesPattern(s)
  {
    var i := Tables.FirstIndex(s, IsAt).value;
    var d := s[i + 1..];
    DomainSplits(d);
    var j :| 0 < j < |d| && IsLabel(d[..j]) && IsDotTail(d[j..]);
    DotLabelsIsDotTail(d[j..]);
    var k := i + 1 + j;
    assert s[i + 1..k] == d[..j];
    assert s[k..] == d[j..];
    assert IsLabel(s[i + 1..k]) && DotLabels(s[k..]);
    assert 0 <= i < k <= |s| && IsLocalPart(s[..i]) && s[i] == '@';
  }

  lemma LocalPartHasNoAt(l: string)
    requires IsLocalPart(l)
    ensures forall m :: 0 <= m < |l| ==> !IsAt(l[m])
  {
    forall m | 0 <= m < |l|
      ensures !IsAt(l[m])
    {
      assert IsLocalChar(l[m]);
    }
  }

  /** The local part holds no '@', so the first '@' is the one the pattern matched. */
  lemma FirstAtEndsLocalPart(s: string, i: nat)
    requires i < |s| && IsLocalPart(s[..i]) && IsAt(s[i])
    ensures Tables.FirstIndex(s, IsAt) == Some(i)
  {
    LocalPartHasNoAt(s[..i]);
    assert forall m :: 0 <= m < i ==> s[m] == s[..i][m];
    var k := Tables.FirstIndex(s, IsAt).value;
    if k < i {
      assert false;
    } else if k > i {
      assert false;
    }
  }

  lemma MatchIsValidEmail(s: string)
    requires MatchesPattern(s)
    ensures IsValidEmail(s)
  {
    var i, j :| 0 <= i < j <= |s| && IsLocalPart(s[..i]) && s[i] == '@' && IsLabel(s[i + 1..j]) && DotLabels(s[j..]);
    MatchAtIsValidEmail(s, i, j);
  }

  /** A match with its '@' at `i` and its first domain label ending at `j` is accepted. */
  lemma MatchAtIsValidEmail(s: string, i: nat, j: nat)
    requires i < j <= |s| && IsLocalPart(s[..i]) && s[i] == '@' && IsLabel(s[i + 1..j]) && DotLabels(s[j..])
    ensures IsValidEmail(s)
  {
    FirstAtEndsLocalPart(s, i);
    var d := s[i + 1..];
    var k := j - i - 1;
    DotLabelsIsDotTail(s[j..]);
    assert d[..k] == s[i + 1..j];
    assert d[k..] == s[j..];
    DomainJoins(d, k);
  }

  /** The character-level check accepts exactly the strings the pattern matches. */
  lemma ValidEmailMatchesPattern(s: string)
    ensures IsValidEmail(s) <==> MatchesPattern(s)
  {
    if IsValidEmail(s) {
      ValidEmailIsMatch(s);
    }
    if MatchesPattern(s) {
      MatchIsValidEmail(s);
    }
  }

  /** `Email::try_from`: accepts exactly the strings matching the pattern, stores them verbatim,
      and rejects the others with an `Internal` error naming the input. */
  function TryFromString(s: string): (r: Result<Email>)
    ensures r.Ok? <==> MatchesPattern(s)
    ensures r.Ok? ==> AsStr(r.value) == s
    ensures r.Err? ==> r.error == Plain(InternalKind, "Invalid email address (" + s + ")!")
  {
    ValidEmailMatchesPattern(s);
    if IsValidEmail(s) then Ok(Email(s))
    else Err(Plain(InternalKind, "Invalid email address (" + s + ")!"))
  }

  /** `Deref`, `AsRef<str>` and `Display` all give the stored text. */
  function AsStr(e: Email): string {
    e.text
  }

  /** An address that was accepted once is accepted again from its text, as the same address. */
  lemma AsStrRoundTrip(e: Email)
    requires MatchesPattern(AsStr(e))
    ensures TryFromString(AsStr(e)) == Ok(e)
  {
  }

  // Examples from the value object's unit tests.

  /** Putting a dot and a label in front of a dot tail (or of nothing) gives a dot tail. */
  lemma DotLabelsCons(b: string, t: string)
    requires IsLabel(b)
    requires t == [] || DotLabels(t)
    ensures DotLabels("." + b + t)
  {
    var d := "." + b + t;
    var k := 1 + |b|;
    assert d[1..k] == b;
    assert d[k..] == t;
  }

  /** A local part, an '@', a label and a dot tail make an accepted address, stored verbatim. */
  lemma AcceptsAddress(l: string, a: string, tail: string)
    requires IsLocalPart(l) && IsLabel(a) && DotLabels(tail)
    ensures TryFromString(l + "@" + a + tail) == Ok(Email(l + "@" + a + tail))
  {
    var s := l + "@" + a + tail;
    var i, j := |l|, |l| + 1 + |a|;
    assert s[..i] == l;
    assert s[i] == '@';
    assert s[i + 1..j] == a;
    assert s[j..] == tail;
    assert MatchesPattern(s);
  }

  lemma AcceptsShortestAddress()
    ensures TryFromString("a@b.co") == Ok(Email("a@b.co"))
  {
    DotLabelsCons("co", "");
    assert "a" + "@" + "b" + ("." + "co" + "") == "a@b.co";
    AcceptsAddress("a", "b", "." + "co" + "");
  }

  lemma AcceptsTestAddress()
    ensures TryFromString("test@example.com") == Ok(Email("test@example.com"))
  {
    DotLabelsCons("com", "");
    assert "test@example.com" == "test" + "@" + "example" + ("." + "com" + "");
    AcceptsAddress("test", "example", "." + "com" + "");
  }

  lemma AcceptsTaggedAddress()
    ensures TryFromString("user+tag@example.org") == Ok(Email("user+tag@example.org"))
  {
    DotLabelsCons("org", "");
    assert "user+tag@example.org" == "user+tag" + "@" + "example" + ("." + "org" + "");
    AcceptsAddress("user+tag", "example", "." + "org" + "");
  }

  lemma AcceptsHyphenatedDomain()
    ensures TryFromString("user123@test-domain.com") == Ok(Email("user123@test-domain.com"))
  {
    DotLabelsCons("com", "");
    assert "user123@test-domain.com" == "user123" + "@" + "test-domain" + ("." + "com" + "");
    AcceptsAddress("user123", "test-domain", "." + "com" + "");
  }

  lemma AcceptsUnderscore()
    ensures TryFromString("user_name@example-domain.com") == Ok(Email("user_name@example-domain.com"))
  {
    DotLabelsCons("com", "");
    assert "user_name@example-domain.com" == "user_name" + "@" + "example-domain" + ("." + "com" + "");
    AcceptsAddress("user_name", "example-domain", "." + "com" + "");
  }

  lemma AcceptsDottedLocalPart()
    ensures TryFromString("user.name@domain.co.uk") == Ok(Email("user.name@domain.co.uk"))
  {
    DotLabelsCons("uk", "");
    DotLabelsCons("co", "." + "uk" + "");
    assert "user.name@domain.co.uk" == "user.name" + "@" + "domain" + ("." + "co" + ("." + "uk" + ""));
    AcceptsAddress("user.name", "domain", "." + "co" + ("." + "uk" + ""));
  }

  lemma AcceptsSymbolInLocalPart()
    ensures TryFromString("test.email.with+symbol@example.com") == Ok(Email("test.email.with+symbol@example.com"))
  {
    DotLabelsCons("com", "");
    assert "test.email.with+symbol@example.com" == "test.email.with+symbol" + "@" + "example" + ("." + "com" + "");
    AcceptsAddress("test.email.with+symbol", "example", "." + "com" + "");
  }

  lemma AcceptsSubdomain()
    ensures TryFromString("test.email+tag@sub-domain.example.com") == Ok(Email("test.email+tag@sub-domain.example.com"))
  {
    DotLabelsCons("com", "");
    DotLabelsCons("example", "." + "com" + "");
    assert "test.email+tag@sub-domain.example.com" == "test.email+tag" + "@" + "sub-domain" + ("." + "example" + ("." + "com" + ""));
    AcceptsAddress("test.email+tag", "sub-domain", "." + "example" + ("." + "com" + ""));
  }

  /** The longest parts the tests try: a 64-character local part and a 63-character label. */
  lemma AcceptsLongAddress()
    ensures TryFromString(seq(64, _ => 'a') + "@" + seq(63, _ => 'b') + ".com").Ok?
  {
    DotLabelsCons("com", "");
    assert ".com" == "." + "com" + "";
    AcceptsAddress(seq(64, _ => 'a'), seq(63, _ => 'b'), ".com");
  }

  /** A string without an '@' is rejected. */
  lemma RejectedWithoutAt(s: string)
    requires forall j :: 0 <= j < |s| ==> s[j] != '@'
    ensures TryFromString(s).Err?
  {
    assert Tables.FirstIndex(s, IsAt).None?;
  }

  lemma RejectsMissingParts()
    ensures TryFromString("").Err?
    ensures TryFromString("invalid").Err?
    ensures TryFromString("@domain.com").Err?
    ensures TryFromString("user@").Err?
  {
    RejectedWithoutAt("");
    RejectedWithoutAt("invalid");
    Tables.FirstIndexAt("@domain.com", IsAt, 0);
    assert !IsLocalPart("@domain.com"[..0]);
    var s := "user@";
    assert s[5..] == "";
    RejectedByDomain(s, 4);
  }

  /** A string whose first '@' is followed by something other than a domain is rejected. */
  lemma RejectedByDomain(s: string, i: nat)
    requires i < |s| && s[i] == '@'
    requires forall j :: 0 <= j < i ==> s[j] != '@'
    requires !IsDomain(s[i + 1..])
    ensures TryFromString(s).Err?
  {
    Tables.FirstIndexAt(s, IsAt, i);
  }

  /** A string whose local part, up to the first '@', is not a local part is rejected. */
  lemma RejectedByLocalPart(s: string, i: nat)
    requires i < |s| && s[i] == '@'
    requires forall j :: 0 <= j < i ==> s[j] != '@'
    requires !IsLocalPart(s[..i])
    ensures TryFromString(s).Err?
  {
    Tables.FirstIndexAt(s, IsAt, i);
  }

  lemma RejectsMissingAt()
    ensures TryFromString("user.domain.com").Err?
  {
    RejectedWithoutAt("user.domain.com");
  }

  lemma RejectsSpaceInLocalPart()
    ensures TryFromString("user name@domain.com").Err?
  {
    var s := "user name@domain.com";
    var l := s[..9];
    assert l[4] == ' ';
    RejectedByLocalPart(s, 9);
  }

  lemma RejectsDomainWithoutDot()
    ensures TryFromString("user@domain").Err?
  {
    var s := "user@domain";
    var d := s[5..];
    assert d == "domain";
    RejectedByDomain(s, 4);
  }

  lemma RejectsTrailingDot()
    ensures TryFromString("user@domain.").Err?
  {
    var s := "user@domain.";
    var d := s[5..];
    assert d[|d| - 1] == '.';
    RejectedByDomain(s, 4);
  }

  lemma RejectsDoubleDot()
    ensures TryFromString("user@domain..com").Err?
  {
    var s := "user@domain..com";
    var d := s[5..];
    assert d[6] == '.' && d[7] == '.';
    RejectedByDomain(s, 4);
  }

  lemma RejectsDoubledAt()
    ensures TryFromString("user@@domain.com").Err?
  {
    var s := "user@@domain.com";
    var d := s[5..];
    assert d[0] == '@';
    RejectedByDomain(s, 4);
  }

  lemma RejectsSecondAt()
    ensures TryFromString("user@domain@com").Err?
  {
    var s := "user@domain@com";
    var d := s[5..];
    assert d[6] == '@';
    RejectedByDomain(s, 4);
  }

  lemma RejectsSpaceInDomain()
    ensures TryFromString("user@domain .com").Err?
  {
    var s := "user@domain .com";
    var d := s[5..];
    assert d[6] == ' ';
    RejectedByDomain(s, 4);
  }
}
