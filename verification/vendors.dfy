/**
 * The vendor administration table: vendors are pending, approved or rejected;
 * only a pending vendor is offered the approve and reject buttons, a click
 * writes the new status to the vendor's row, and the table is read again when
 * that write succeeds.
 */
module Vendors {
  import opened Base

  datatype Status = Pending | Approved | Rejected

  /** The two buttons. */
  datatype Decision = Approve | Reject

  datatype Vendor = Vendor(id: string, companyName: string, registrationNumber: string,
                           contactEmail: string, status: Status, createdAt: string)

  /** The `update({ status }).eq('id', id)` request. */
  datatype StatusWrite = StatusWrite(id: string, status: Status)

  /** The status a button writes. */
  function Target(d: Decision): (s: Status)
    ensures s != Pending
    ensures d == Approve <==> s == Approved
  {
    match d
    case Approve => Approved
    case Reject => Rejected
  }

  /** The buttons shown on a vendor's row. */
  function Offered(v: Vendor): (ds: set<Decision>)
    ensures ds != {} <==> v.status == Pending
    ensures v.status == Pending ==> ds == {Approve, Reject}
  {
    if v.status == Pending then {Approve, Reject} else {}
  }

  /** The badge of a status. */
  function StatusBadge(s: Status): (b: Badge)
    ensures b == BadgeSecondary <==> s == Approved
    ensures b == BadgeDestructive <==> s == Rejected
    ensures b == BadgeDefault <==> s.Pending?
  {
    if s == Approved then BadgeSecondary
    else if s == Rejected then BadgeDestructive
    else BadgeDefault
  }

  /** The row update the backend performs for a write. */
  function ApplyWrite(rows: seq<Vendor>, w: StatusWrite): (r: seq<Vendor>)
    ensures |r| == |rows|
    ensures forall i :: 0 <= i < |rows| ==> r[i] == rows[i].(status := r[i].status)
    ensures forall i :: 0 <= i < |rows| && rows[i].id == w.id ==> r[i].status == w.status
    ensures forall i :: 0 <= i < |rows| && rows[i].id != w.id ==> r[i] == rows[i]
  {
    seq(|rows|, i requires 0 <= i < |rows| => if rows[i].id == w.id then rows[i].(status := w.status) else rows[i])
  }

  /** After a button's write, every row of that vendor shows the button's
      status, its badge is no longer the pending one and it is offered no more
      buttons; the other vendors' rows are as they were. */
  lemma WriteDecidesRow(rows: seq<Vendor>, id: string, d: Decision)
    ensures var r := ApplyWrite(rows, StatusWrite(id, Target(d)));
      forall i :: 0 <= i < |rows| && rows[i].id == id ==>
        r[i].status == Target(d) && StatusBadge(r[i].status) != BadgeDefault && Offered(r[i]) == {}
    ensures var r := ApplyWrite(rows, StatusWrite(id, Target(d)));
      forall i :: 0 <= i < |rows| && rows[i].id != id ==> r[i] == rows[i]
  {
  }

  /** A vendor after a run of clicks on its row: a click acts only when its
      button is offered on the row as it stands, and then writes its status. */
  function AfterClicks(v: Vendor, clicks: seq<Decision>): Vendor
    decreases |clicks|
  {
    if clicks == [] then v
    else if clicks[0] in Offered(v) then AfterClicks(v.(status := Target(clicks[0])), clicks[1..])
    else AfterClicks(v, clicks[1..])
  }

  /** Approved and rejected are final: a decided vendor is offered no button,
      so no run of clicks changes it, and a pending vendor is decided by its
      first click alone. */
  lemma {:induction false} DecidedIsFinal(v: Vendor, clicks: seq<Decision>)
    ensures v.status != Pending ==> AfterClicks(v, clicks) == v
    ensures v.status == Pending && clicks != [] ==> AfterClicks(v, clicks) == v.(status := Target(clicks[0]))
    decreases |clicks|
  {
    if clicks != [] {
      DecidedIsFinal(v, clicks[1..]);
      if v.status == Pending {
        DecidedIsFinal(v.(status := Target(clicks[0])), clicks[1..]);
      }
    }
  }

  class VendorTable {
    var vendors: seq<Vendor>
    var loading: bool

    constructor ()
      ensures vendors == [] && loading
    {
      vendors := [];
      loading := true;
    }

    /** `fetchVendors`: an error keeps the list, a null result empties it. */
    method FetchVendors(read: Result<Option<seq<Vendor>>>)
      modifies this`vendors, this`loading
      ensures read.Ok? && read.value.Some? ==> vendors == read.value.value
      ensures read.Ok? && read.value.None? ==> vendors == []
      ensures read.Err? ==> vendors == old(vendors)
      ensures !loading
    {
      if read.Ok? {
        vendors := if read.value.Some? then read.value.value else [];
      }
      loading := false;
    }

    /** `updateVendorStatus`: `updated` is the reply to the write and `reread`
        the reply the following read would get. Returns the write issued and
        whether the list was read again. */
    method UpdateVendorStatus(id: string, d: Decision, updated: Outcome, reread: Result<Option<seq<Vendor>>>)
      returns (write: StatusWrite, refetched: bool)
      modifies this`vendors, this`loading
      ensures write == StatusWrite(id, Target(d)) && write.status != Pending
      ensures refetched <==> updated.Pass?
      ensures !refetched ==> vendors == old(vendors) && loading == old(loading)
      ensures refetched && reread.Ok? && reread.value.Some? ==> vendors == reread.value.value
      ensures refetched && reread.Ok? && reread.value.None? ==> vendors == []
      ensures refetched && reread.Err? ==> vendors == old(vendors)
      ensures refetched ==> !loading
      ensures refetched && reread == Ok(Some(ApplyWrite(old(vendors), write))) ==>
        forall i :: 0 <= i < |vendors| && vendors[i].id == id ==>
          vendors[i].status == Target(d) && Offered(vendors[i]) == {}
    {
      write := StatusWrite(id, Target(d));
      refetched := updated.Pass?;
      if refetched {
        FetchVendors(reread);
      }
    }
  }
}
