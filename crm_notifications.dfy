/**
 * The sidebar notifications of the partner CRM: a list kept for the session
 * and a counter of the unread ones. The list is seeded with two unread
 * notifications when it is empty, and "Marquer comme lu" marks one read.
 */
module CrmNotifications {
  import opened Seqs

  datatype Notification = Notification(title: string, message: string, date: string, read: bool)

  predicate IsUnread(n: Notification) { !n.read }

  /** The number of unread notifications. */
  function Unread(items: seq<Notification>): (n: nat)
    ensures n <= |items|
    ensures n > 0 <==> exists k :: 0 <= k < |items| && !items[k].read
  {
    if items == [] then 0
    else
      var rest := Unread(items[1..]);
      assert forall k :: 0 <= k < |items[1..]| ==> items[1..][k] == items[k + 1];
      assert rest > 0 ==> exists k :: 0 <= k < |items| && !items[k].read by {
        if rest > 0 {
          var k :| 0 <= k < |items[1..]| && !items[1..][k].read;
          assert !items[k + 1].read;
        }
      }
      (if items[0].read then 0 else 1) + rest
  }

  /** Marking one unread notification read lowers the unread count by exactly one. */
  lemma {:induction false} UnreadAfterMarking(items: seq<Notification>, i: nat)
    requires i < |items| && !items[i].read
    ensures Unread(items[i := items[i].(read := true)]) == Unread(items) - 1
  {
    var after := items[i := items[i].(read := true)];
    if i > 0 {
      assert after[1..] == items[1..][i - 1 := items[i].(read := true)];
      UnreadAfterMarking(items[1..], i - 1);
    } else {
      assert after[1..] == items[1..];
    }
  }

  /** The positions of the unread notifications, in list order. */
  function UnreadPositions(items: seq<Notification>): (r: seq<nat>)
    ensures forall k :: 0 <= k < |r| ==> r[k] < |items| && !items[r[k]].read
    ensures forall k :: 0 <= k < |items| && !items[k].read ==> k in r
    ensures forall a, b :: 0 <= a < b < |r| ==> r[a] < r[b]
  {
    if items == [] then []
    else
      var last := |items| - 1;
      var init := UnreadPositions(items[..last]);
      if items[last].read then init else init + [last]
  }

  /** No position is listed exactly when no notification is unread. */
  lemma ListedIffUnread(items: seq<Notification>)
    ensures UnreadPositions(items) == [] <==> Unread(items) == 0
  {
    if Unread(items) > 0 {
      var k :| 0 <= k < |items| && !items[k].read;
      assert k in UnreadPositions(items);
    }
  }

  /** The two notifications shown at the start of a session. */
  function Seed(now: string): seq<Notification>
  {
    [Notification("Suivi à effectuer", "Vous avez 3 suivis à effectuer aujourd'hui.", now, false),
     Notification("Nouvel événement", "Un nouvel événement a été planifié.", now, false)]
  }

  /** The seeded list has exactly the two unread notifications the counter is set to. */
  lemma SeedCount(now: string)
    ensures Unread(Seed(now)) == 2
  {
    var s := Seed(now);
    assert s[1..][1..] == [];
  }

  class NotificationCenter {
    var items: seq<Notification>
    var count: int

    /** The counter shown in the sidebar is the number of unread notifications. */
    ghost predicate Valid()
      reads this
    {
      count == Unread(items)
    }

    /** A new session: no notification, counter at 0. */
    constructor ()
      ensures Valid()
      ensures items == [] && count == 0
    {
      items := [];
      count := 0;
    }

    /** An empty list receives the two seeded notifications and the counter becomes 2. */
    method SeedIfEmpty(now: string)
      requires Valid()
      modifies this
      ensures Valid()
      ensures old(items) == [] ==> items == Seed(now) && count == 2
      ensures old(items) != [] ==> items == old(items) && count == old(count)
    {
      if |items| == 0 {
        items := items + Seed(now);
        count := 2;
        SeedCount(now);
      }
    }

    /** The notifications listed in the sidebar, by position: the unread ones, when the counter is positive. */
    function Listed(): (r: seq<nat>)
      reads this
      ensures count > 0 ==> r == UnreadPositions(items)
      ensures count <= 0 ==> r == []
    {
      if count > 0 then UnreadPositions(items) else []
    }

    /** "Marquer comme lu" on an unread notification: that flag only, and one less on the counter. */
    method MarkRead(i: nat)
      requires Valid()
      requires i < |items| && !items[i].read
      modifies this
      ensures Valid()
      ensures items == old(items)[i := old(items)[i].(read := true)]
      ensures count == old(count) - 1
      ensures count >= 0
    {
      UnreadAfterMarking(items, i);
      items := items[i := items[i].(read := true)];
      count := count - 1;
    }
  }
}
