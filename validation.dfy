/**
 * The FluentValidation rules the request validators are built from. The
 * library's own predicates (`NotEmpty`, `EmailAddress`, and
 * `Uri.TryCreate(.., UriKind.Absolute, ..)`) stay uninterpreted: a
 * `Library` value supplies them, and nothing is assumed about them.
 * A request field is an `Option<string>`, `None` being a missing (null) field.
 */
module Validation {
  import opened Wrappers

  datatype Library = Library(
    notEmpty: string -> bool,        // `NotEmpty()` on a non-null string
    isEmailAddress: string -> bool,  // `EmailAddress()` on a non-null string
    isAbsoluteUri: string -> bool    // `Uri.TryCreate(x, UriKind.Absolute, out _)`
  )

  /** `string.IsNullOrEmpty`. */
  predicate IsNullOrEmpty(s: Option<string>) {
    s.None? || s.value == ""
  }

  /** `NotNull()`. */
  predicate NotNull(s: Option<string>) {
    s.Some?
  }

  /** `Equal(expected)`: ordinal equality; null equals nothing. */
  predicate Equal(s: Option<string>, expected: string) {
    s == Some(expected)
  }

  /** `NotEmpty()`: null fails, any other value is left to the library. */
  predicate NotEmpty(lib: Library, s: Option<string>) {
    s.Some? && lib.notEmpty(s.value)
  }

  /** `Must(x => Uri.TryCreate(x, UriKind.Absolute, out _))`: null is not a URI. */
  predicate AbsoluteUri(lib: Library, s: Option<string>) {
    s.Some? && lib.isAbsoluteUri(s.value)
  }

  /** An optional field: checked with `NotEmpty()` only `When(!IsNullOrEmpty(..))`. */
  predicate OptionalNotEmpty(lib: Library, s: Option<string>) {
    !IsNullOrEmpty(s) ==> NotEmpty(lib, s)
  }

  /** An optional redirect: checked as an absolute URI only `When(!IsNullOrEmpty(..))`. */
  predicate OptionalAbsoluteUri(lib: Library, s: Option<string>) {
    !IsNullOrEmpty(s) ==> AbsoluteUri(lib, s)
  }
}
