/** The single-slot toast presenter `showNotification` and the timed steps it
    schedules: slide in, close on click, auto-dismiss, and the detaching that
    follows a dismissal. Each node is identified by the number it was shown
    with; the timers and the close handler hold on to that number. */
module Notifications {

  /** The left-border accent a toast gets from its type. */
  datatype Accent = NoAccent | SuccessAccent | ErrorAccent

  /** A notification node in the page: its message, its class attribute, its
      accent, and whether it rests on screen (translateX(0)) or off to the
      right (translateX(100%)). */
  datatype Toast = Toast(id: nat, message: string, className: string, accent: Accent, onScreen: bool)

  /** The class attribute `notification notification--<type>`. Its first
      class token is `notification`, which is what the next `Show`'s
      `querySelector('.notification')` looks for; the type follows the
      `notification--` prefix unchanged. */
  function ClassName(kind: string): (r: string)
    ensures |r| > |"notification"| && r[..|"notification"|] == "notification" && r[|"notification"|] == ' '
    ensures |r| >= |"notification notification--"|
    ensures r[|"notification "|..|"notification notification--"|] == "notification--"
    ensures r[|"notification notification--"|..] == kind
  {
    "notification notification--" + kind
  }

  /** Only "success" and "error" set a left-border colour and width. */
  function AccentFor(kind: string): (a: Accent)
    ensures a == SuccessAccent <==> kind == "success"
    ensures a == ErrorAccent <==> kind == "error"
    ensures a == NoAccent <==> kind != "success" && kind != "error"
  {
    if kind == "success" then SuccessAccent
    else if kind == "error" then ErrorAccent
    else NoAccent
  }

  /** The node that `showNotification(message, kind)` builds, before it slides in. */
  function NewToast(id: nat, message: string, kind: string): Toast {
    Toast(id, message, ClassName(kind), AccentFor(kind), false)
  }

  /** Some attached node carries the number `id`: its parentNode is set. */
  predicate IsAttached(ts: seq<Toast>, id: nat) {
    exists t :: t in ts && t.id == id
  }

  /** The attached nodes with the one numbered `id` slid off screen. */
  function SlideOut(ts: seq<Toast>, id: nat): (r: seq<Toast>)
    ensures |r| == |ts|
    ensures forall k :: 0 <= k < |ts| ==>
      r[k] == if ts[k].id == id then ts[k].(onScreen := false) else ts[k]
  {
    if ts == [] then []
    else [if ts[0].id == id then ts[0].(onScreen := false) else ts[0]] + SlideOut(ts[1..], id)
  }

  /** The attached nodes with the one numbered `id` slid on screen. */
  function SlideOn(ts: seq<Toast>, id: nat): (r: seq<Toast>)
    ensures |r| == |ts|
    ensures forall k :: 0 <= k < |ts| ==>
      r[k] == if ts[k].id == id then ts[k].(onScreen := true) else ts[k]
  {
    if ts == [] then []
    else [if ts[0].id == id then ts[0].(onScreen := true) else ts[0]] + SlideOn(ts[1..], id)
  }

  /** The attached nodes after `node.remove()` on the node numbered `id`. */
  function Detach(ts: seq<Toast>, id: nat): (r: seq<Toast>)
    ensures !IsAttached(r, id)
    ensures forall t :: t in r <==> t in ts && t.id != id
    ensures forall j :: j != id ==> (IsAttached(r, j) <==> IsAttached(ts, j))
    ensures !IsAttached(ts, id) ==> r == ts
    ensures |r| <= |ts|
  {
    if ts == [] then []
    else if ts[0].id == id then Detach(ts[1..], id)
    else
      var rest := Detach(ts[1..], id);
      assert forall t :: t in ts <==> t == ts[0] || t in ts[1..];
      [ts[0]] + rest
  }

  /** The notification nodes attached to the page body, in document order. */
  class NotificationSlot {
    var attached: seq<Toast>
    var nextId: nat

    /** At most one notification is attached, and every attached node was
        numbered before `nextId`. */
    ghost predicate Valid()
      reads this
    {
      && |attached| <= 1
      && forall k :: 0 <= k < |attached| ==> attached[k].id < nextId
    }

    constructor ()
      ensures Valid() && attached == [] && nextId == 0
    {
      attached := [];
      nextId := 0;
    }

    /** showNotification(message, kind): remove the existing notification
        (the first `.notification` in the page), then append a fresh node,
        off screen. Returns the number of the new node. */
    method Show(message: string, kind: string) returns (id: nat)
      requires Valid()
      modifies this
      ensures Valid()
      ensures id == old(nextId) && nextId == old(nextId) + 1
      ensures attached == [NewToast(id, message, kind)]
    {
      if |attached| > 0 {
        attached := attached[1..];
      }
      id := nextId;
      attached := attached + [NewToast(id, message, kind)];
      nextId := nextId + 1;
    }

    /** The animate-in timer (100 ms): set translateX(0) on node `id`. A node
        that is no longer attached is not in the page, so nothing visible
        changes. */
    method SlideIn(id: nat)
      requires Valid()
      modifies this
      ensures Valid() && nextId == old(nextId)
      ensures attached == SlideOn(old(attached), id)
      ensures !old(IsAttached(attached, id)) ==> attached == old(attached)
    {
      attached := SlideOn(attached, id);
      if !IsAttached(old(attached), id) {
        assert attached == old(attached);
      }
    }

    /** A click on node `id`'s close button: slide it off screen; the caller
        then schedules `Remove(id)` (300 ms later). */
    method Close(id: nat)
      requires Valid()
      modifies this
      ensures Valid() && nextId == old(nextId)
      ensures attached == SlideOut(old(attached), id)
      ensures !old(IsAttached(attached, id)) ==> attached == old(attached)
    {
      attached := SlideOut(attached, id);
      if !IsAttached(old(attached), id) {
        assert attached == old(attached);
      }
    }

    /** The auto-dismiss timer (5000 ms): only if node `id` is still attached,
        slide it off screen and report that `Remove(id)` is scheduled. */
    method AutoDismiss(id: nat) returns (removalScheduled: bool)
      requires Valid()
      modifies this
      ensures Valid() && nextId == old(nextId)
      ensures removalScheduled <==> old(IsAttached(attached, id))
      ensures attached == if removalScheduled then SlideOut(old(attached), id) else old(attached)
    {
      removalScheduled := IsAttached(attached, id);
      if removalScheduled {
        attached := SlideOut(attached, id);
      }
    }

    /** The removal timer (300 ms after a dismissal): `node.remove()` guarded
        by `node.parentNode`, so a second removal of the same node, or the
        removal of a node a newer notification replaced, changes nothing. */
    method Remove(id: nat)
      requires Valid()
      modifies this
      ensures Valid() && nextId == old(nextId)
      ensures !IsAttached(attached, id)
      ensures forall j :: j != id ==> (IsAttached(attached, j) <==> old(IsAttached(attached, j)))
      ensures !old(IsAttached(attached, id)) ==> attached == old(attached)
    {
      if IsAttached(attached, id) {
        attached := Detach(attached, id);
      }
    }
  }
}
