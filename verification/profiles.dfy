/**
 * The `profiles` table as the sign-in code sees it, and the provisioning rule
 * the OAuth callback and the client-side provider both apply: look the user's
 * profile up and, when none is found, insert one with the `user` role.
 */
module Profiles {
  import opened Base

  /** The signed-in user of a session. */
  datatype AuthUser = AuthUser(id: string, email: string)

  datatype Profile = Profile(email: string, role: Role)

  /** The profile a provisioning insert writes. */
  function DefaultProfile(u: AuthUser): (p: Profile)
    ensures p.role == User && p.email == u.email
  {
    Profile(u.email, User)
  }

  /** The table after provisioning `u`: a found profile is left alone; otherwise
      the insert adds the default profile, unless it fails (a backend fault, or
      a row that the faulty lookup missed already holds the id). */
  function Provisioned(rows: map<string, Profile>, u: AuthUser, lookupFault: bool, insertFault: bool)
    : map<string, Profile>
  {
    if !lookupFault && u.id in rows then rows
    else if !insertFault && u.id !in rows then rows[u.id := DefaultProfile(u)]
    else rows
  }

  /** Provisioning never changes or removes an existing profile, only ever adds
      the user's own, and never grants the admin role. */
  lemma ProvisionedKeepsRows(rows: map<string, Profile>, u: AuthUser, lookupFault: bool, insertFault: bool)
    ensures var r := Provisioned(rows, u, lookupFault, insertFault);
      && (forall k :: k in rows ==> k in r && r[k] == rows[k])
      && (forall k :: k in r && k !in rows ==> k == u.id && r[k] == DefaultProfile(u))
      && (forall k :: k in r && r[k].role == Admin ==> k in rows && rows[k].role == Admin)
  {
  }

  /** Without faults the user has a profile afterwards: the old one if any, the
      default one otherwise. */
  lemma ProvisionedHasProfile(rows: map<string, Profile>, u: AuthUser)
    ensures u.id in Provisioned(rows, u, false, false)
    ensures Provisioned(rows, u, false, false)[u.id] == if u.id in rows then rows[u.id] else DefaultProfile(u)
  {
  }

  /** Provisioning twice is provisioning once. */
  lemma ProvisionedIdempotent(rows: map<string, Profile>, u: AuthUser, f1: bool, f2: bool)
    ensures Provisioned(Provisioned(rows, u, false, false), u, f1, f2) == Provisioned(rows, u, false, false)
  {
  }

  /** The profiles table, standing in for the backend. */
  class ProfileTable {
    var rows: map<string, Profile>

    constructor (initial: map<string, Profile>)
      ensures rows == initial
    {
      rows := initial;
    }

    /** `select().eq('id', id).single()`: whether a profile came back. A fault
        (or the missing row `single` reports as an error) yields none. */
    method Lookup(id: string, fault: bool) returns (found: bool)
      ensures found <==> !fault && id in rows
    {
      found := !fault && id in rows;
    }

    /** `insert(...)`: rejected on a fault or when the id is already taken. */
    method Insert(id: string, p: Profile, fault: bool) returns (ok: bool)
      modifies this
      ensures ok <==> !fault && id !in old(rows)
      ensures rows == if ok then old(rows)[id := p] else old(rows)
    {
      ok := !fault && id !in rows;
      if ok {
        rows := rows[id := p];
      }
    }

    /** Look the user up and insert the default profile when none came back.
        Reports whether the insert was attempted and whether it failed. */
    method EnsureProfile(u: AuthUser, lookupFault: bool, insertFault: bool) returns (inserted: bool, failed: bool)
      modifies this
      ensures rows == Provisioned(old(rows), u, lookupFault, insertFault)
      ensures inserted <==> lookupFault || u.id !in old(rows)
      ensures failed <==> inserted && (insertFault || u.id in old(rows))
    {
      var found := Lookup(u.id, lookupFault);
      inserted := !found;
      failed := false;
      if inserted {
        var ok := Insert(u.id, DefaultProfile(u), insertFault);
        failed := !ok;
      }
    }
  }
}
