/**
 * Registration and login credentials: an email address the library
 * accepts, and a password with at least one character from each of four
 * ASCII classes. There is no length rule.
 */
module AccountAuthDtos {
  import opened Wrappers
  import opened Validation
  import Decimal

  datatype AccountAuthDto = AccountAuthDto(emailAddress: Option<string>, password: Option<string>)

  predicate IsAsciiUpper(ch: char) { 'A' <= ch <= 'Z' }
  predicate IsAsciiLower(ch: char) { 'a' <= ch <= 'z' }

  /** The class `[^A-Za-z0-9]`: spaces, punctuation and non-ASCII letters all fall in it. */
  predicate IsSymbol(ch: char) {
    !IsAsciiUpper(ch) && !IsAsciiLower(ch) && !Decimal.IsDigit(ch)
  }

  /** `new Regex(class).IsMatch(s)` for a one-character class: some character of `s` is in it. */
  predicate Matches(s: string, charClass: char -> bool) {
    exists i :: 0 <= i < |s| && charClass(s[i])
  }

  /** The four `Must` rules on a password, in the order they are declared. */
  predicate PasswordRules(p: string) {
    && Matches(p, IsAsciiUpper)
    && Matches(p, IsAsciiLower)
    && Matches(p, Decimal.IsDigit)
    && Matches(p, IsSymbol)
  }

  /** `AccountAuthDtoValidator`: email present and accepted; password present and, only then, the four rules. */
  predicate IsValid(lib: Library, dto: AccountAuthDto)
    ensures IsValid(lib, dto) ==> dto.emailAddress.Some? && dto.password.Some? && |dto.password.value| >= 4
  {
    && NotNull(dto.emailAddress)
    && (dto.emailAddress.Some? ==> lib.isEmailAddress(dto.emailAddress.value))
    && NotNull(dto.password)
    && (dto.password.Some? ==> PasswordRules(dto.password.value))
  }

  lemma Characterization(lib: Library, dto: AccountAuthDto)
    ensures IsValid(lib, dto) <==>
      && dto.emailAddress.Some? && lib.isEmailAddress(dto.emailAddress.value)
      && dto.password.Some?
      && (exists i :: 0 <= i < |dto.password.value| && 'A' <= dto.password.value[i] <= 'Z')
      && (exists i :: 0 <= i < |dto.password.value| && 'a' <= dto.password.value[i] <= 'z')
      && (exists i :: 0 <= i < |dto.password.value| && '0' <= dto.password.value[i] <= '9')
      && (exists i :: 0 <= i < |dto.password.value| && IsSymbol(dto.password.value[i]))
  {
  }

  lemma NullRejected(lib: Library, dto: AccountAuthDto)
    requires dto.emailAddress.None? || dto.password.None?
    ensures !IsValid(lib, dto)
  {
  }

  /** `Example#12` passes, and so does a four-character password: there is no length rule. */
  lemma AcceptedPasswords()
    ensures PasswordRules("Example#12")
    ensures PasswordRules("Aa1#")
  {
    assert IsAsciiUpper("Example#12"[0]) && IsAsciiLower("Example#12"[1]);
    assert Decimal.IsDigit("Example#12"[8]) && IsSymbol("Example#12"[7]);
    assert IsAsciiUpper("Aa1#"[0]) && IsAsciiLower("Aa1#"[1]);
    assert Decimal.IsDigit("Aa1#"[2]) && IsSymbol("Aa1#"[3]);
  }

  /** The rejected examples each miss exactly one class: `password#12` the capital, */
  lemma RejectedNoUpper()
    ensures !Matches("password#12", IsAsciiUpper) && Matches("password#12", IsAsciiLower)
    ensures Matches("password#12", Decimal.IsDigit) && Matches("password#12", IsSymbol)
  {
    var p := "password#12";
    assert IsAsciiLower(p[0]) && Decimal.IsDigit(p[9]) && IsSymbol(p[8]);
    forall i | 0 <= i < |p| ensures !IsAsciiUpper(p[i]) {
      assert p[i] in "password#12";
    }
  }

  /** `PASSWORD#12` the lower-case letter, */
  lemma RejectedNoLower()
    ensures Matches("PASSWORD#12", IsAsciiUpper) && !Matches("PASSWORD#12", IsAsciiLower)
    ensures Matches("PASSWORD#12", Decimal.IsDigit) && Matches("PASSWORD#12", IsSymbol)
  {
    var p := "PASSWORD#12";
    assert IsAsciiUpper(p[0]) && Decimal.IsDigit(p[9]) && IsSymbol(p[8]);
    forall i | 0 <= i < |p| ensures !IsAsciiLower(p[i]) {
      assert p[i] in "PASSWORD#12";
    }
  }

  /** `Password#` the digit, */
  lemma RejectedNoDigit()
    ensures Matches("Password#", IsAsciiUpper) && Matches("Password#", IsAsciiLower)
    ensures !Matches("Password#", Decimal.IsDigit) && Matches("Password#", IsSymbol)
  {
    var p := "Password#";
    assert IsAsciiUpper(p[0]) && IsAsciiLower(p[1]) && IsSymbol(p[8]);
    forall i | 0 <= i < |p| ensures !Decimal.IsDigit(p[i]) {
      assert p[i] in "Password#";
    }
  }

  /** and `Password12` the symbol. */
  lemma RejectedNoSymbol()
    ensures Matches("Password12", IsAsciiUpper) && Matches("Password12", IsAsciiLower)
    ensures Matches("Password12", Decimal.IsDigit) && !Matches("Password12", IsSymbol)
  {
    var p := "Password12";
    assert IsAsciiUpper(p[0]) && IsAsciiLower(p[1]) && Decimal.IsDigit(p[8]);
    forall i | 0 <= i < |p| ensures !IsSymbol(p[i]) {
      assert p[i] in "Password12";
    }
  }

  /** A space or a non-ASCII letter counts as the symbol. */
  lemma SymbolClassIsBroad()
    ensures PasswordRules("Aa1 ")
    ensures PasswordRules("Aa1é")
  {
    assert IsAsciiUpper("Aa1 "[0]) && IsAsciiLower("Aa1 "[1]) && Decimal.IsDigit("Aa1 "[2]) && IsSymbol("Aa1 "[3]);
    assert IsAsciiUpper("Aa1é"[0]) && IsAsciiLower("Aa1é"[1]) && Decimal.IsDigit("Aa1é"[2]) && IsSymbol("Aa1é"[3]);
  }
}
