/**
 * The udev listener: which block-device notifications become events for the
 * state machine. Only insertions and removals of the one watched disk do.
 */
module DiskMonitor {
  import opened Wrappers
  import opened Machine

  /** Name of the device that is watched (and wiped). */
  const WipeDevice: string := "sda"

  /** One udev notification: its action ("add", "remove", "change", ...) and the device node. */
  datatype Uevent = Uevent(action: string, devname: string)

  /** The event a notification produces, if any. */
  function DeviceEvent(u: Uevent): (r: Option<Event>)
    ensures r == Some(Add) <==> u.devname == "/dev/sda" && u.action == "add"
    ensures r == Some(Remove) <==> u.devname == "/dev/sda" && u.action == "remove"
    ensures r.Some? ==> r == Some(Add) || r == Some(Remove)
  {
    if u.devname == "/dev/" + WipeDevice then
      if u.action == "add" then Some(Add)
      else if u.action == "remove" then Some(Remove)
      else None
    else None
  }

  /** The events a sequence of notifications produces, in order. */
  function Filtered(us: seq<Uevent>): (r: seq<Event>)
    ensures |r| <= |us|
    ensures forall i :: 0 <= i < |r| ==> r[i] == Add || r[i] == Remove
    decreases |us|
  {
    if us == [] then []
    else
      var rest := Filtered(us[..|us| - 1]);
      match DeviceEvent(us[|us| - 1])
      case None => rest
      case Some(e) => rest + [e]
  }

  /** The monitor handles a stream piece by piece: the events of `a + b` are those of `a` followed by those of `b`. */
  lemma {:induction false} FilteredAppend(a: seq<Uevent>, b: seq<Uevent>)
    ensures Filtered(a + b) == Filtered(a) + Filtered(b)
    decreases |b|
  {
    if b == [] {
      assert a + b == a;
    } else {
      assert (a + b)[..|a + b| - 1] == a + b[..|b| - 1];
      FilteredAppend(a, b[..|b| - 1]);
    }
  }

  /** Notifications about other devices, or other actions, post nothing. */
  lemma {:induction false} OthersPostNothing(us: seq<Uevent>)
    requires forall i :: 0 <= i < |us| ==> DeviceEvent(us[i]).None?
    ensures Filtered(us) == []
    decreases |us|
  {
    if us != [] {
      OthersPostNothing(us[..|us| - 1]);
    }
  }

  /** Irrelevant notifications anywhere in a stream change nothing about what it posts. */
  lemma IgnoredAmidStream(a: seq<Uevent>, others: seq<Uevent>, b: seq<Uevent>)
    requires forall i :: 0 <= i < |others| ==> DeviceEvent(others[i]).None?
    ensures Filtered(a + others + b) == Filtered(a) + Filtered(b)
  {
    OthersPostNothing(others);
    FilteredAppend(a + others, b);
    FilteredAppend(a, others);
    assert Filtered(a) + [] == Filtered(a);
  }

  /**
   * An insertion or removal of the watched disk, wherever it arrives in the
   * stream, posts its own event between the events of what came before and
   * what comes after.
   */
  lemma WatchedAmidStream(a: seq<Uevent>, u: Uevent, b: seq<Uevent>)
    requires u.devname == "/dev/sda" && (u.action == "add" || u.action == "remove")
    ensures Filtered(a + [u] + b) == Filtered(a) + [if u.action == "add" then Add else Remove] + Filtered(b)
  {
    FilteredAppend(a + [u], b);
    assert (a + [u])[..|a + [u]| - 1] == a;
  }

  /** When every notification is an insertion or removal of the watched disk, each one posts its event, in order. */
  lemma {:induction false} WatchedDiskPostsEverything(us: seq<Uevent>)
    requires forall i :: 0 <= i < |us| ==>
      us[i].devname == "/dev/sda" && (us[i].action == "add" || us[i].action == "remove")
    ensures |Filtered(us)| == |us|
    ensures forall i :: 0 <= i < |us| ==> Filtered(us)[i] == (if us[i].action == "add" then Add else Remove)
    decreases |us|
  {
    if us != [] {
      WatchedDiskPostsEverything(us[..|us| - 1]);
    }
  }

  /**
   * The monitor thread: posts add when the disk is already present at
   * start-up, then one event per relevant notification, in arrival order.
   */
  method Monitor(presentAtStart: bool, us: seq<Uevent>) returns (posted: seq<Event>)
    ensures posted == (if presentAtStart then [Add] else []) + Filtered(us)
  {
    posted := if presentAtStart then [Add] else [];
    ghost var initial := posted;
    for i := 0 to |us|
      invariant posted == initial + Filtered(us[..i])
    {
      assert us[..i + 1][..i] == us[..i];
      match DeviceEvent(us[i])
      case Some(e) =>
        posted := posted + [e];
      case None =>
    }
    assert us[..|us|] == us;
  }
}
