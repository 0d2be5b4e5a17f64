/** The package-name rule, which the registry also applies to developer, team and
    audit-action names. */
module Names {
  import opened Text

  const MAX_NAME_BYTES: nat := 64

  predicate NameChar(c: char)
  {
    'a' <= c <= 'z' || '0' <= c <= '9' || c == '_' || c == '-'
  }

  /** Windows device basenames, refused on every host. The rule folds case and
      drops extensions; on text that already obeys the character rule only the
      bare lower-case spellings remain. */
  predicate ReservedDevice(s: string)
  {
    || s == "con" || s == "prn" || s == "aux" || s == "nul"
    || (|s| == 4 && (s[..3] == "com" || s[..3] == "lpt") && '1' <= s[3] <= '9')
  }

  predicate ValidName(s: string)
  {
    && 1 <= |s| <= MAX_NAME_BYTES
    && 'a' <= s[0] <= 'z'
    && (forall i :: 0 <= i < |s| ==> NameChar(s[i]))
    && !ReservedDevice(s)
  }

  /** The rule in full: one to 64 bytes, a letter first, then letters, digits, `_` and
      `-`, and no device name, numbered or not. */
  lemma NameRule(s: string)
    ensures ValidName(s) <==>
            && 1 <= |s| <= 64 && 97 <= s[0] as int <= 122
            && (forall i :: 0 <= i < |s| ==> 97 <= s[i] as int <= 122 || 48 <= s[i] as int <= 57 || s[i] in "_-")
            && s != "con" && s != "prn" && s != "aux" && s != "nul"
            && (forall d :: '1' <= d <= '9' ==> s != "com" + [d] && s != "lpt" + [d])
  {
    if |s| == 4 {
      assert s == s[..3] + [s[3]];
    }
    assert forall d: char :: ("com" + [d])[..3] == "com" && ("lpt" + [d])[..3] == "lpt";
    assert forall d: char :: ("com" + [d])[3] == d && ("lpt" + [d])[3] == d;
  }

  /** A name never needs quoting anywhere: not in a subject, not in a line. */
  lemma NameIsPlain(s: string)
    requires ValidName(s)
    ensures ':' !in s && '\n' !in s && Word(s)
  {
  }
}
