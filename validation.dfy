/**
 * The two username/password validators: the server's guard against SQL
 * injection (UserDB.checkString) and the web form's check (valid.js).
 * Both accept the same characters; they differ on the empty string and on
 * the "--" and "delimiter" words.
 */
module Validation {
  import opened Wrappers
  import opened Strings

  /** Longest string either validator accepts. */
  const MaxLength: nat := 64

  /** validChar: ASCII letters, digits and - . @ _ (the same rule on both sides). */
  predicate ValidChar(c: char) {
    ('a' <= c <= 'z') || ('A' <= c <= 'Z') || ('0' <= c <= '9')
    || c == '-' || c == '.' || c == '@' || c == '_'
  }

  predicate AllValidChars(s: string) {
    forall i :: 0 <= i < |s| ==> ValidChar(s[i])
  }

  /**
   * What the server lets into a SQL query: at most 64 valid characters, no
   * "--" and no "delimiter" in any letter case.
   */
  predicate SqlSafe(s: string) {
    |s| <= MaxLength && AllValidChars(s)
    && !Contains(s, "--") && !Contains(ToLower(s), "delimiter")
  }

  /** UserDB.checkString; `None` is a null reference, which is refused. */
  method CheckString(s: Option<string>) returns (ok: bool)
    ensures ok <==> s.Some? && SqlSafe(s.value)
  {
    if s.None? {
      return false;
    }
    var str := s.value;
    if |str| > MaxLength {
      return false;
    }
    var i := 0;
    while i < |str|
      invariant 0 <= i <= |str|
      invariant forall j :: 0 <= j < i ==> ValidChar(str[j])
    {
      if !ValidChar(str[i]) {
        return false;
      }
      i := i + 1;
    }
    if IndexOf(str, "--") >= 0 {
      return false;
    }
    if IndexOf(ToLower(str), "delimiter") >= 0 {
      return false;
    }
    return true;
  }

  /** What the web form accepts: 1 to 64 valid characters. */
  predicate FormValid(s: string) {
    0 < |s| <= MaxLength && AllValidChars(s)
  }

  /** checkString of valid.js. */
  method CheckFormString(s: string) returns (ok: bool)
    ensures ok <==> FormValid(s)
  {
    if |s| == 0 || |s| > MaxLength {
      return false;
    }
    var i := 0;
    while i < |s|
      invariant 0 <= i <= |s|
      invariant forall j :: 0 <= j < i ==> ValidChar(s[j])
    {
      if !ValidChar(s[i]) {
        return false;
      }
      i := i + 1;
    }
    return true;
  }

  /** A SQL-safe string carries no quote, blank, semicolon or comment opener. */
  lemma SqlSafeHasNoQueryMetacharacters(s: string)
    requires SqlSafe(s)
    ensures forall c :: c in s ==> c != '\'' && c != '"' && c != ' ' && c != ';' && c != '/' && c != '*'
  {
  }

  /** The server accepts the empty string, the web form does not. */
  lemma EmptyStringValidatorsDisagree()
    ensures SqlSafe("") && !FormValid("")
  {
  }

  /** Off the empty string, whatever the server accepts the form accepts too. */
  lemma SqlSafeNonEmptyIsFormValid(s: string)
    requires SqlSafe(s) && s != ""
    ensures FormValid(s)
  {
  }

  /** The form has no word checks: it accepts "--" and "DELIMITER", the server refuses both. */
  lemma FormLacksWordChecks()
    ensures FormValid("a--b") && !SqlSafe("a--b")
    ensures FormValid("DELIMITER") && !SqlSafe("DELIMITER")
  {
    assert OccursAt("a--b", "--", 1);
    ContainsIffOccurs("a--b", "--");
    assert ToLower("DELIMITER") == "delimiter";
    assert OccursAt(ToLower("DELIMITER"), "delimiter", 0);
    ContainsIffOccurs(ToLower("DELIMITER"), "delimiter");
  }

  /** On strings of valid characters up to 64 long, the two differ only by the word checks. */
  lemma ValidatorsDifferOnlyByWords(s: string)
    requires 0 < |s|
    ensures SqlSafe(s) <==> FormValid(s) && !Contains(s, "--") && !Contains(ToLower(s), "delimiter")
  {
  }
}
