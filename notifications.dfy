/**
 * `NotificationContext`: the list of toasts, appended to by `addNotification`
 * and filtered by `removeNotification`, and the style and icon of each toast
 * type. The generated id and the timer are outside the model: the id is a
 * parameter and `Add` returns the delay after which the timer would remove it.
 */
module Notifications {
  import opened Wrappers

  /** A toast. `kind` is its `type`. */
  datatype Notification = Notification(id: string, kind: string, title: string, message: Option<string>, duration: Option<int>)

  /** What callers pass to `addNotification`: a notification without its id. */
  datatype Draft = Draft(kind: string, title: string, message: Option<string>, duration: Option<int>)

  const DefaultDuration := 5000

  function WithId(d: Draft, id: string): (n: Notification)
    ensures n.id == id && n.kind == d.kind && n.title == d.title && n.message == d.message && n.duration == d.duration
  {
    Notification(id, d.kind, d.title, d.message, d.duration)
  }

  /** `notification.duration || 5000`: an absent or zero duration falls back to the default. */
  function AutoRemoveDelay(duration: Option<int>): (delay: int)
    ensures duration.Some? && duration.value != 0 ==> delay == duration.value
    ensures (duration.None? || duration == Some(0)) ==> delay == DefaultDuration
  {
    if duration.None? || duration.value == 0 then DefaultDuration else duration.value
  }

  /** `prev.filter(n => n.id !== id)`. */
  function Without(ns: seq<Notification>, id: string): seq<Notification>
  {
    if ns == [] then []
    else if ns[0].id != id then [ns[0]] + Without(ns[1..], id)
    else Without(ns[1..], id)
  }

  /** Exactly the toasts with another id remain, and none is added. */
  lemma {:induction false} WithoutMembers(ns: seq<Notification>, id: string)
    ensures |Without(ns, id)| <= |ns|
    ensures forall n :: n in Without(ns, id) <==> n in ns && n.id != id
  {
    if ns != [] {
      WithoutMembers(ns[1..], id);
      assert ns == [ns[0]] + ns[1..];
    }
  }

  /** `a` can be obtained from `b` by deleting entries: the order of what is kept is the old order. */
  predicate IsSubsequence(a: seq<Notification>, b: seq<Notification>)
    decreases |b|
  {
    if a == [] then true
    else if b == [] then false
    else if a[0] == b[0] then IsSubsequence(a[1..], b[1..])
    else IsSubsequence(a, b[1..])
  }

  /** Removal keeps the remaining toasts in their order. */
  lemma {:induction false} WithoutKeepsOrder(ns: seq<Notification>, id: string)
    ensures IsSubsequence(Without(ns, id), ns)
  {
    if ns != [] {
      WithoutKeepsOrder(ns[1..], id);
      if ns[0].id != id {
        assert ([ns[0]] + Without(ns[1..], id))[1..] == Without(ns[1..], id);
      } else {
        SubsequenceOfTail(Without(ns[1..], id), ns);
      }
    }
  }

  /** A subsequence of the tail is a subsequence of the whole. */
  lemma {:induction false} SubsequenceOfTail(a: seq<Notification>, b: seq<Notification>)
    requires b != [] && IsSubsequence(a, b[1..])
    ensures IsSubsequence(a, b)
    decreases |b|, 0
  {
    if a != [] && a[0] == b[0] {
      SubsequenceDropFirst(a, b[1..]);
    }
  }

  /** Dropping the first entry of a subsequence leaves a subsequence. */
  lemma {:induction false} SubsequenceDropFirst(a: seq<Notification>, c: seq<Notification>)
    requires a != [] && IsSubsequence(a, c)
    ensures IsSubsequence(a[1..], c)
    decreases |c|, 1
  {
    if a[0] == c[0] {
      SubsequenceOfTail(a[1..], c);
    } else {
      SubsequenceDropFirst(a, c[1..]);
      SubsequenceOfTail(a[1..], c);
    }
  }

  /** Removing an id no toast has changes nothing. */
  lemma {:induction false} WithoutAbsentIsIdentity(ns: seq<Notification>, id: string)
    requires forall i :: 0 <= i < |ns| ==> ns[i].id != id
    ensures Without(ns, id) == ns
  {
    if ns != [] {
      WithoutAbsentIsIdentity(ns[1..], id);
      assert ns == [ns[0]] + ns[1..];
    }
  }

  /** Removing twice is removing once. */
  lemma WithoutIdempotent(ns: seq<Notification>, id: string)
    ensures Without(Without(ns, id), id) == Without(ns, id)
  {
    var r := Without(ns, id);
    WithoutMembers(ns, id);
    assert forall i :: 0 <= i < |r| ==> r[i] in r;
    WithoutAbsentIsIdentity(r, id);
  }

  /** The timer's removal undoes the addition when the new id was not in use. */
  lemma {:induction false} RemoveUndoesAdd(ns: seq<Notification>, n: Notification)
    requires forall i :: 0 <= i < |ns| ==> ns[i].id != n.id
    ensures Without(ns + [n], n.id) == ns
  {
    if ns == [] {
      assert [n][1..] == [];
    } else {
      RemoveUndoesAdd(ns[1..], n);
      var s := ns + [n];
      assert s[0] == ns[0] && s[0].id != n.id;
      assert s[1..] == ns[1..] + [n];
      assert Without(s, n.id) == [ns[0]] + Without(ns[1..] + [n], n.id);
      assert ns == [ns[0]] + ns[1..];
    }
  }

  // The colours and the icon of a toast, by type.

  function ToastStyle(kind: string): string
  {
    match kind
    case "success" => "bg-green-500 text-white"
    case "error" => "bg-red-500 text-white"
    case "warning" => "bg-yellow-500 text-white"
    case "info" => "bg-blue-500 text-white"
    case _ => "bg-gray-500 text-white"
  }

  function Icon(kind: string): string
  {
    match kind
    case "success" => "\U{2713}"
    case "error" => "\U{2715}"
    case "warning" => "\U{26A0}"
    case "info" => "\U{2139}"
    case _ => ""
  }

  predicate IsKnownKind(kind: string)
  {
    kind == "success" || kind == "error" || kind == "warning" || kind == "info"
  }

  /** Known types have their own style and a non-empty icon; any other type gets the grey style and no icon. */
  lemma StylesTellKindsApart(a: string, b: string)
    ensures IsKnownKind(a) && IsKnownKind(b) && a != b ==> ToastStyle(a) != ToastStyle(b) && Icon(a) != Icon(b)
    ensures IsKnownKind(a) ==> Icon(a) != "" && ToastStyle(a) != "bg-gray-500 text-white"
    ensures !IsKnownKind(a) ==> ToastStyle(a) == "bg-gray-500 text-white" && Icon(a) == ""
  {
  }

  /** The provider's `notifications` state. */
  class NotificationCenter {
    var notifications: seq<Notification>

    constructor ()
      ensures notifications == []
    {
      notifications := [];
    }

    /** `addNotification`: appends the toast with its new id and returns the auto-removal delay. */
    method Add(d: Draft, id: string) returns (delay: int)
      modifies this
      ensures notifications == old(notifications) + [WithId(d, id)]
      ensures delay == AutoRemoveDelay(d.duration)
    {
      notifications := notifications + [WithId(d, id)];
      delay := AutoRemoveDelay(d.duration);
    }

    /** `removeNotification`. */
    method Remove(id: string)
      modifies this
      ensures notifications == Without(old(notifications), id)
    {
      notifications := Without(notifications, id);
    }

    /** `success`, `error`, `warning`, `info`: a toast of that type with no duration. */
    method Notify(kind: string, title: string, message: Option<string>, id: string) returns (delay: int)
      requires IsKnownKind(kind)
      modifies this
      ensures notifications == old(notifications) + [Notification(id, kind, title, message, None)]
      ensures delay == DefaultDuration
    {
      delay := Add(Draft(kind, title, message, None), id);
    }
  }
}
