/**
 * Values shared by every component of the admin front end: optional values,
 * the outcome of a backend call, and what a `catch` block sees when one fails.
 */
module Base {

  datatype Option<+T> = None | Some(value: T)

  /** What a JavaScript `catch (err)` receives: an `Error` instance carrying a
      message, or some other thrown value (a plain error object, a string, ...). */
  datatype ErrorValue = ErrorInstance(message: string) | OtherThrown

  /** The `{ error }` part of a backend reply: no error, or an error value. */
  datatype Outcome = Pass | Fail(error: ErrorValue)

  /** The `{ data, error }` reply of a backend read. */
  datatype Result<+T> = Ok(value: T) | Err(error: ErrorValue)

  /** The `role` column of a profile row. */
  datatype Role = Admin | User

  /** The three badge variants of the UI kit that the admin tables use. */
  datatype Badge = BadgeDefault | BadgeSecondary | BadgeDestructive

  /** `err instanceof Error ? err.message : fallback` */
  function MessageOr(e: ErrorValue, fallback: string): (m: string)
    ensures e.ErrorInstance? ==> m == e.message
    ensures e.OtherThrown? ==> m == fallback
  {
    match e
    case ErrorInstance(msg) => msg
    case OtherThrown => fallback
  }

  /** A string field read with `value || fallback`: an absent or empty string
      takes the fallback. */
  function OrElse(v: Option<string>, fallback: string): (r: string)
    ensures v.Some? && v.value != "" ==> r == v.value
    ensures v.None? || v.value == "" ==> r == fallback
  {
    if v.Some? && v.value != "" then v.value else fallback
  }

  /** `s.includes(sub)`, written as a scan from the left. */
  predicate Contains(s: string, sub: string)
    decreases |s|
  {
    |sub| <= |s| && (s[..|sub|] == sub || (|s| > 0 && Contains(s[1..], sub)))
  }

  /** `sub` occurs in `s` starting at index `i`. */
  predicate OccursAt(s: string, sub: string, i: int)
  {
    0 <= i <= |s| - |sub| && s[i..i + |sub|] == sub
  }

  /** The scan agrees with the textbook definition of a substring: some
      window of `s` equals `sub`. */
  lemma {:induction false} ContainsIffWindow(s: string, sub: string)
    ensures Contains(s, sub) <==> exists i :: OccursAt(s, sub, i)
    decreases |s|
  {
    if |sub| > |s| {
    } else if s[..|sub|] == sub {
      assert OccursAt(s, sub, 0);
    } else {
      ContainsIffWindow(s[1..], sub);
      if Contains(s[1..], sub) {
        var i :| OccursAt(s[1..], sub, i);
        assert s[i + 1..i + 1 + |sub|] == s[1..][i..i + |sub|];
        assert OccursAt(s, sub, i + 1);
      }
      if exists i :: OccursAt(s, sub, i) {
        var i :| OccursAt(s, sub, i);
        assert i != 0 by { assert s[0..0 + |sub|] == s[..|sub|]; }
        assert s[1..][i - 1..i - 1 + |sub|] == s[i..i + |sub|];
        assert OccursAt(s[1..], sub, i - 1);
      }
    }
  }
}
