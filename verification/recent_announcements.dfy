/**
 * The dashboard's recent-announcements widget: at most five announcements,
 * newest first, kept in step by the realtime channel.
 */
module RecentAnnouncements {
  import opened Base
  import opened Mirror

  datatype Announcement = Announcement(id: string, title: string, status: string, createdAt: string)

  function AnnouncementId(a: Announcement): string { a.id }

  class Widget {
    var announcements: seq<Announcement>

    constructor (initialAnnouncements: seq<Announcement>)
      ensures announcements == initialAnnouncements
    {
      announcements := initialAnnouncements;
    }

    /** The realtime handler, with the same cap of five as the files widget. */
    method OnChange(ch: Change<Announcement>)
      modifies this`announcements
      ensures announcements == Apply(old(announcements), ch, AnnouncementId, Some(RecentCap))
      ensures ch.Inserted? ==>
        (announcements[0] == ch.row && |announcements| <= RecentCap
         && announcements[1..] == old(announcements)[..|announcements| - 1])
      ensures ch.Deleted? && (forall i :: 0 <= i < |old(announcements)| ==> old(announcements)[i].id != ch.id) ==>
        announcements == old(announcements)
      ensures |old(announcements)| <= RecentCap ==> |announcements| <= RecentCap
    {
      InsertSpec(announcements, if ch.Inserted? then ch.row else Announcement("", "", "", ""),
                 AnnouncementId, Some(RecentCap));
      if |announcements| <= RecentCap {
        ApplyBounded(announcements, ch, AnnouncementId, RecentCap);
      }
      match ch {
        case Inserted(row) =>
          announcements := Take([row] + announcements, RecentCap);
        case Deleted(id) =>
          announcements := WithoutId(announcements, id, AnnouncementId);
        case Updated =>
      }
    }

    /** Any run of events, one call each, keeps a widget that started within
        the cap within it, and leaves exactly the replayed list. */
    method OnChanges(chs: seq<Change<Announcement>>)
      modifies this`announcements
      ensures announcements == Replay(old(announcements), chs, AnnouncementId, Some(RecentCap))
      ensures |old(announcements)| <= RecentCap ==> |announcements| <= RecentCap
    {
      ghost var start := announcements;
      var k := 0;
      while k < |chs|
        invariant 0 <= k <= |chs|
        invariant Replay(start, chs, AnnouncementId, Some(RecentCap))
               == Replay(announcements, chs[k..], AnnouncementId, Some(RecentCap))
        invariant |start| <= RecentCap ==> |announcements| <= RecentCap
      {
        assert chs[k..][1..] == chs[k + 1..];
        OnChange(chs[k]);
        k := k + 1;
      }
    }
  }
}
