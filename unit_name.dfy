/**
 * Unit-name validation and normalisation (`_UNIT_RE` and `_normalize_unit`).
 *
 * The pattern is the raw string `^[A-Za-z0-9@._:-]+(?:\\.[A-Za-z0-9@._:-]+)?$`.
 * In a raw string `\\.` reaches the regex engine as two tokens: a literal
 * backslash, then `.`, which matches any one character except a newline.  So a
 * name is a run of unit characters, optionally followed by a backslash, one
 * arbitrary non-newline character and a second run of unit characters.
 */
module UnitName {
  import opened Results
  import opened Text

  const UnitRequired := "unit is required"
  const InvalidUnitName := "invalid unit name"
  const ServiceSuffix := ".service"

  /** The character class `[A-Za-z0-9@._:-]`. */
  predicate IsUnitChar(c: char)
  {
    ('A' <= c <= 'Z') || ('a' <= c <= 'z') || ('0' <= c <= '9')
    || c == '@' || c == '.' || c == '_' || c == ':' || c == '-'
  }

  /** Positions `lo` up to (not including) `hi` of `s` hold unit characters. */
  predicate UnitCharsIn(s: string, lo: nat, hi: nat)
    requires lo <= hi <= |s|
  {
    forall k :: lo <= k < hi ==> IsUnitChar(s[k])
  }

  /** Where the run of unit characters starting at `from` ends. */
  function RunEnd(s: string, from: nat): (n: nat)
    requires from <= |s|
    ensures from <= n <= |s| && UnitCharsIn(s, from, n)
    ensures n < |s| ==> !IsUnitChar(s[n])
    decreases |s| - from
  {
    if from == |s| || !IsUnitChar(s[from]) then from else RunEnd(s, from + 1)
  }

  /**
   * The pattern body matched against the whole of `s`.  The class has no
   * backslash, so the first run of unit characters ends exactly where the
   * optional group must begin.
   */
  predicate MatchesBody(s: string)
  {
    var n := RunEnd(s, 0);
    && 0 < n
    && (n == |s| || (s[n] == '\\' && n + 2 < |s| && s[n + 1] != '\n' && UnitCharsIn(s, n + 2, |s|)))
  }

  /** `_UNIT_RE.match(s)`: Python's `$` also matches just before a final newline. */
  predicate MatchesUnitPattern(s: string)
  {
    MatchesBody(s) || (s != [] && s[|s| - 1] == '\n' && MatchesBody(s[..|s| - 1]))
  }

  /** The language of the pattern body, read off the regex without regard to matching order. */
  ghost predicate InPatternLanguage(s: string)
  {
    || (s != [] && UnitCharsIn(s, 0, |s|))
    || exists n :: 0 < n && n + 2 < |s| && UnitCharsIn(s, 0, n) && s[n] == '\\'
                   && s[n + 1] != '\n' && UnitCharsIn(s, n + 2, |s|)
  }

  /** The hand-written matcher accepts exactly the pattern's language. */
  lemma MatchesBodyIsLanguage(s: string)
    ensures MatchesBody(s) <==> InPatternLanguage(s)
  {
    var n := RunEnd(s, 0);
    if InPatternLanguage(s) && !(s != [] && UnitCharsIn(s, 0, |s|)) {
      var m :| 0 < m && m + 2 < |s| && UnitCharsIn(s, 0, m) && s[m] == '\\'
               && s[m + 1] != '\n' && UnitCharsIn(s, m + 2, |s|);
      assert !IsUnitChar(s[m]);
      assert n == m;
    }
  }

  /** Unit characters in `s` stay unit characters in `s + t`, and so do those of `t`. */
  lemma ConcatUnitChars(s: string, t: string, lo: nat, hi: nat)
    requires lo <= hi <= |s| && UnitCharsIn(s, lo, hi)
    ensures UnitCharsIn(s + t, lo, hi)
    ensures hi == |s| && UnitCharsIn(t, 0, |t|) ==> UnitCharsIn(s + t, lo, |s + t|)
  {
    var st := s + t;
    if hi == |s| && UnitCharsIn(t, 0, |t|) {
      forall k | lo <= k < |st| ensures IsUnitChar(st[k]) {
        if k >= |s| {
          assert st[k] == t[k - |s|];
        }
      }
    }
  }

  /** Appending unit characters keeps a name inside the pattern's language. */
  lemma AppendUnitChars(s: string, t: string)
    requires InPatternLanguage(s) && UnitCharsIn(t, 0, |t|)
    ensures InPatternLanguage(s + t)
  {
    var st := s + t;
    if s != [] && UnitCharsIn(s, 0, |s|) {
      ConcatUnitChars(s, t, 0, |s|);
    } else {
      var n :| 0 < n && n + 2 < |s| && UnitCharsIn(s, 0, n) && s[n] == '\\'
               && s[n + 1] != '\n' && UnitCharsIn(s, n + 2, |s|);
      ConcatUnitChars(s, t, 0, n);
      ConcatUnitChars(s, t, n + 2, |s|);
      assert st[n] == '\\' && st[n + 1] == s[n + 1];
    }
  }

  /**
   * `_normalize_unit`: strip, refuse an empty name or one the pattern rejects,
   * and give a bare name (one without a dot) the `.service` suffix.
   */
  function Normalize(unit: string): (r: Result<string, string>)
    ensures r.Err? <==> Strip(unit) == [] || !MatchesUnitPattern(Strip(unit))
    ensures r.Err? ==> r.error == (if Strip(unit) == [] then UnitRequired else InvalidUnitName)
    ensures r.Ok? ==> '.' in r.value && Strip(unit) <= r.value
    ensures r.Ok? ==> (r.value == Strip(unit) <==> '.' in Strip(unit))
    ensures r.Ok? && '.' !in Strip(unit) ==> r.value == Strip(unit) + ServiceSuffix
  {
    var u := Strip(unit);
    if u == [] then Err(UnitRequired)
    else if !MatchesUnitPattern(u) then Err(InvalidUnitName)
    else if '.' !in u then Ok(u + ServiceSuffix)
    else Ok(u)
  }

  /**
   * Every accepted name comes out as a well-formed unit name: no whitespace at
   * either end, inside the pattern's language, and carrying a dot.
   */
  lemma NormalizedIsValid(unit: string)
    requires Normalize(unit).Ok?
    ensures var v := Normalize(unit).value;
      && v != [] && !IsSpace(v[0]) && !IsSpace(v[|v| - 1])
      && InPatternLanguage(v) && '.' in v
  {
    var u := Strip(unit);
    StrippedNameInLanguage(u);
    if '.' !in u {
      SuffixedNameValid(u);
    }
  }

  /** A stripped name the pattern accepts is in the pattern's language: the trailing-newline case cannot arise. */
  lemma StrippedNameInLanguage(u: string)
    requires u != [] && !IsSpace(u[|u| - 1]) && MatchesUnitPattern(u)
    ensures InPatternLanguage(u)
  {
    assert MatchesBody(u);
    MatchesBodyIsLanguage(u);
  }

  /** Appending the `.service` suffix keeps a name valid. */
  lemma SuffixedNameValid(u: string)
    requires u != [] && InPatternLanguage(u)
    ensures var v := u + ServiceSuffix;
      && !IsSpace(v[|v| - 1]) && v[0] == u[0] && InPatternLanguage(v) && '.' in v
  {
    var v := u + ServiceSuffix;
    assert UnitCharsIn(ServiceSuffix, 0, |ServiceSuffix|);
    AppendUnitChars(u, ServiceSuffix);
    assert v[|u|] == '.';
  }

  /** Normalising an already normalised name changes nothing. */
  lemma NormalizeIdempotent(unit: string)
    requires Normalize(unit).Ok?
    ensures Normalize(Normalize(unit).value) == Normalize(unit)
  {
    var v := Normalize(unit).value;
    NormalizedIsValid(unit);
    StripKeepsTrimmed(v);
    MatchesBodyIsLanguage(v);
  }

  /** A nonempty run of unit characters matches without the optional group. */
  lemma PlainNameMatches(s: string)
    requires s != [] && UnitCharsIn(s, 0, |s|)
    ensures MatchesBody(s)
  {
    MatchesBodyIsLanguage(s);
  }

  /** A name in normal form: a nonempty run of unit characters with a dot. */
  predicate InNormalForm(s: string)
  {
    s != [] && UnitCharsIn(s, 0, |s|) && '.' in s
  }

  /** A name already in normal form comes back unchanged. */
  lemma NormalizeDottedName(s: string)
    requires InNormalForm(s)
    ensures Normalize(s) == Ok(s)
  {
    assert !IsSpace(s[0]) && !IsSpace(s[|s| - 1]);
    StripKeepsTrimmed(s);
    PlainNameMatches(s);
  }

  /** A bare name gains the suffix. */
  lemma NormalizeBareName(input: string)
    requires input == "sshd"
    ensures Normalize(input) == Ok("sshd.service")
  {
    StripKeepsTrimmed(input);
    assert UnitCharsIn(input, 0, |input|);
    PlainNameMatches(input);
    assert '.' !in input by {
      forall k | 0 <= k < |input| ensures input[k] != '.' { }
    }
    assert input + ServiceSuffix == "sshd.service";
  }

  /** Normalisation sees only the stripped name. */
  lemma NormalizeSeesStripped(unit: string)
    ensures Normalize(unit) == Normalize(Strip(unit))
  {
    StripIdempotent(unit);
  }

  /** Surrounding whitespace, a trailing newline included, is dropped before matching. */
  lemma NormalizeStripsInput(input: string)
    requires input == "  bluetooth.service\n"
    ensures Normalize(input) == Ok("bluetooth.service")
  {
    var u := input[2..19];
    assert input == input[..2] + u + input[19..] by {
      assert input[..2] + u + input[19..] == input[..19] + input[19..];
    }
    assert AllSpace(input[..2]) && AllSpace(input[19..]);
    assert u == "bluetooth.service" by {
      forall k | 0 <= k < 17 ensures u[k] == "bluetooth.service"[k] { }
    }
    BluetoothInNormalForm(u);
    StripPadded(input[..2], u, input[19..]);
    NormalizeDottedName(u);
    NormalizeSeesStripped(input);
  }

  lemma BluetoothInNormalForm(u: string)
    requires u == "bluetooth.service"
    ensures InNormalForm(u) && !IsSpace(u[0]) && !IsSpace(u[|u| - 1])
  {
    assert u[9] == '.';
  }

  /** Blank input is refused as missing. */
  lemma NormalizeBlank(input: string)
    requires input == " \t "
    ensures Normalize(input) == Err(UnitRequired)
  {
    assert input == input + "" + "";
    StripPadded(input, "", "");
  }

  /** A name outside the pattern is refused as invalid. */
  lemma NormalizeInvalid(input: string)
    requires input == "ssh d"
    ensures Normalize(input) == Err(InvalidUnitName)
  {
    StripKeepsTrimmed(input);
    assert UnitCharsIn(input, 0, 3) && !IsUnitChar(input[3]);
    assert RunEnd(input, 0) == 3;
  }

  /** A single backslash followed by any character is let through by the pattern as written. */
  lemma NormalizeBackslashName(input: string)
    requires input == "getty\\x2d1"
    ensures Normalize(input) == Ok("getty\\x2d1.service")
  {
    StripKeepsTrimmed(input);
    assert UnitCharsIn(input, 0, 5) && input[5] == '\\' && UnitCharsIn(input, 7, |input|);
    assert RunEnd(input, 0) == 5;
    assert '.' !in input by {
      forall k | 0 <= k < |input| ensures input[k] != '.' { }
    }
    assert input + ServiceSuffix == "getty\\x2d1.service";
  }
}
