/**
 * The audit-log table's cell formatting: the change set of an entry as
 * `key: value` pairs, the badge of its action, and the acting user's email.
 */
module AuditLog {
  import opened Base

  /** One `[key, value]` pair of `Object.entries(changes)`; `rendered` is
      `JSON.stringify(value)`, or `None` when that throws. */
  datatype Field = Field(key: string, rendered: Option<string>)

  /** The `changes` column: a falsy value (null, undefined, `false`, `0`, the
      empty string), or a value with the listed entries. */
  datatype Changes = Falsy | Fields(fields: seq<Field>)

  /** The embedded `user:profiles(email)` object. */
  datatype UserRef = UserRef(email: Option<string>)

  const NoChanges := "No changes"
  const InvalidChanges := "Invalid changes format"

  /** `parts.join(sep)` */
  function Join(parts: seq<string>, sep: string): string
    decreases |parts|
  {
    if parts == [] then ""
    else if |parts| == 1 then parts[0]
    else parts[0] + sep + Join(parts[1..], sep)
  }

  /** Joining two non-empty lists is joining each and putting one separator
      between them: the parts appear in their order. */
  lemma {:induction false} JoinAppend(a: seq<string>, b: seq<string>, sep: string)
    requires a != [] && b != []
    ensures Join(a + b, sep) == Join(a, sep) + sep + Join(b, sep)
    decreases |a|
  {
    if |a| == 1 {
      assert (a + b)[1..] == b;
    } else {
      assert (a + b)[1..] == a[1..] + b;
      JoinAppend(a[1..], b, sep);
    }
  }

  predicate Renders(f: Field) { f.rendered.Some? }

  /** The `key: value` text of a field that renders. */
  function Pair(f: Field): string
    requires Renders(f)
  {
    f.key + ": " + f.rendered.value
  }

  /** `formatChanges` */
  function FormatChanges(c: Changes): (s: string)
    ensures c.Falsy? ==> s == NoChanges
    ensures c.Fields? && (exists i :: 0 <= i < |c.fields| && !Renders(c.fields[i])) ==> s == InvalidChanges
    ensures c.Fields? && c.fields == [] ==> s == ""
    ensures c.Fields? && |c.fields| == 1 && Renders(c.fields[0]) ==> s == Pair(c.fields[0])
  {
    if c.Falsy? then NoChanges
    else if exists i :: 0 <= i < |c.fields| && !Renders(c.fields[i]) then InvalidChanges
    else Join(seq(|c.fields|, i requires 0 <= i < |c.fields| => Pair(c.fields[i])), ", ")
  }

  /** The text of a change set whose values all render is the text of its first
      part, a comma, and the text of the rest, in entry order. */
  lemma FormatChangesAppend(a: seq<Field>, b: seq<Field>)
    requires a != [] && b != []
    requires forall i :: 0 <= i < |a| ==> Renders(a[i])
    requires forall i :: 0 <= i < |b| ==> Renders(b[i])
    ensures FormatChanges(Fields(a + b)) == FormatChanges(Fields(a)) + ", " + FormatChanges(Fields(b))
  {
    var pa := seq(|a|, i requires 0 <= i < |a| => Pair(a[i]));
    var pb := seq(|b|, i requires 0 <= i < |b| => Pair(b[i]));
    var ab := a + b;
    assert forall i :: 0 <= i < |ab| ==> Renders(ab[i]) by {
      forall i | 0 <= i < |ab| ensures Renders(ab[i]) {
        if i >= |a| { assert ab[i] == b[i - |a|]; }
      }
    }
    assert seq(|ab|, i requires 0 <= i < |ab| => Pair(ab[i])) == pa + pb;
    JoinAppend(pa, pb, ", ");
  }

  /** The badge of an action. */
  function ActionBadge(action: string): (b: Badge)
    ensures b == BadgeSecondary <==> action == "INSERT"
    ensures b == BadgeDefault <==> action == "UPDATE"
    ensures b == BadgeDestructive <==> action != "INSERT" && action != "UPDATE"
  {
    if action == "INSERT" then BadgeSecondary
    else if action == "UPDATE" then BadgeDefault
    else BadgeDestructive
  }

  /** `log.user?.email || 'Unknown'` */
  function UserLabel(user: Option<UserRef>): (s: string)
    ensures user.None? || user.value.email.None? ==> s == "Unknown"
    ensures user.Some? && user.value.email.Some? ==> s == OrElse(user.value.email, "Unknown")
    ensures s != ""
  {
    if user.Some? then OrElse(user.value.email, "Unknown") else "Unknown"
  }
}
