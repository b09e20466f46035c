/** Identifier grammars shared by the policy, record and delivery modules. */
module Grammar {

  predicate IsLower(c: char) { 'a' <= c <= 'z' }

  predicate IsUpper(c: char) { 'A' <= c <= 'Z' }

  predicate IsDecimal(c: char) { '0' <= c <= '9' }

  predicate IsAlnum(c: char) { IsLower(c) || IsUpper(c) || IsDecimal(c) }

  /** `[A-Za-z0-9][A-Za-z0-9._-]{0,127}`, matched in full. */
  predicate IsToken(s: string) {
    1 <= |s| <= 128 && IsAlnum(s[0]) && forall c :: c in s ==> IsAlnum(c) || c == '.' || c == '_' || c == '-'
  }

  /** `sha256:` and 64 lower-case hex digits. */
  predicate IsDigest(s: string) {
    |s| == 71 && s[..7] == "sha256:" && forall c :: c in s[7..] ==> IsDecimal(c) || 'a' <= c <= 'f'
  }

  /** No C0 control character and no DEL. */
  predicate IsPrintable(s: string) {
    forall c :: c in s ==> c >= ' ' && c as int != 127
  }

  // --- In code points ---

  predicate LetterOrDigit(c: char) {
    48 <= c as int <= 57 || 65 <= c as int <= 90 || 97 <= c as int <= 122
  }

  /** A token: 1 to 128 letters, digits, dots, underscores and hyphens, the first a letter or digit. */
  lemma TokenExactly(s: string)
    ensures IsToken(s) <==>
      && 0 < |s| < 129 && LetterOrDigit(s[0])
      && forall i :: 0 <= i < |s| ==> LetterOrDigit(s[i]) || s[i] as int in {46, 95, 45}
  {
    assert forall i :: 0 <= i < |s| ==> s[i] in s;
  }

  predicate HexDigits(s: string) {
    |s| == 64 && forall i :: 0 <= i < |s| ==> 48 <= s[i] as int <= 57 || 97 <= s[i] as int <= 102
  }

  /** A digest: its scheme and 64 lower-case hex digits. */
  lemma DigestExactly(s: string)
    ensures IsDigest(s) <==> exists digits :: HexDigits(digits) && s == "sha256:" + digits
  {
    if IsDigest(s) {
      assert s == "sha256:" + s[7..];
      assert forall i :: 0 <= i < 64 ==> s[7..][i] in s[7..];
      assert HexDigits(s[7..]);
    }
    if digits :| HexDigits(digits) && s == "sha256:" + digits {
      assert s[7..] == digits && s[..7] == "sha256:";
    }
  }
}
