/** The toast list behind `useToast`: toasts are appended at the end and
    removed by id. The random id of a new toast is a parameter. */
module Toasts {

  import opened Common

  datatype ToastType = Success | Error | Warning | Info

  datatype Toast = Toast(id: string, kind: ToastType, message: string)

  /** The list without the toasts carrying `id`. */
  function Removed(toasts: seq<Toast>, id: string): (r: seq<Toast>)
    ensures forall t :: t in r <==> t in toasts && t.id != id
    ensures |r| <= |toasts|
  {
    Filter(toasts, (t: Toast) => t.id != id)
  }

  /** Removing an id no toast carries leaves the list as it was. */
  lemma RemoveAbsent(toasts: seq<Toast>, id: string)
    requires forall t :: t in toasts ==> t.id != id
    ensures Removed(toasts, id) == toasts
  {
    FilterAll(toasts, (t: Toast) => t.id != id);
  }

  /** Removal keeps the order of what remains: it works on each part of a
      list separately. */
  lemma RemoveKeepsOrder(front: seq<Toast>, back: seq<Toast>, id: string)
    ensures Removed(front + back, id) == Removed(front, id) + Removed(back, id)
  {
    FilterAppend(front, back, (t: Toast) => t.id != id);
  }

  /** Removing twice is removing once. */
  lemma RemoveIdempotent(toasts: seq<Toast>, id: string)
    ensures Removed(Removed(toasts, id), id) == Removed(toasts, id)
  {
    RemoveAbsent(Removed(toasts, id), id);
  }

  /** Closing a toast just added under a fresh id gives back the list it
      was added to. */
  lemma AddThenRemove(toasts: seq<Toast>, t: Toast)
    requires forall u :: u in toasts ==> u.id != t.id
    ensures Removed(toasts + [t], t.id) == toasts
  {
    RemoveKeepsOrder(toasts, [t], t.id);
    RemoveAbsent(toasts, t.id);
    assert Removed([t], t.id) == [];
  }

  /** The toasts on screen. */
  class ToastList {
    var toasts: seq<Toast>

    constructor()
      ensures toasts == []
    {
      toasts := [];
    }

    /** `addToast`: one toast at the end. */
    method AddToast(id: string, kind: ToastType, message: string)
      modifies this
      ensures toasts == old(toasts) + [Toast(id, kind, message)]
    {
      toasts := toasts + [Toast(id, kind, message)];
    }

    /** `removeToast`. */
    method RemoveToast(id: string)
      modifies this
      ensures toasts == Removed(old(toasts), id)
    {
      toasts := Removed(toasts, id);
    }

    method ShowSuccess(id: string, message: string)
      modifies this
      ensures toasts == old(toasts) + [Toast(id, Success, message)]
    {
      AddToast(id, Success, message);
    }

    method ShowError(id: string, message: string)
      modifies this
      ensures toasts == old(toasts) + [Toast(id, Error, message)]
    {
      AddToast(id, Error, message);
    }

    method ShowWarning(id: string, message: string)
      modifies this
      ensures toasts == old(toasts) + [Toast(id, Warning, message)]
    {
      AddToast(id, Warning, message);
    }

    method ShowInfo(id: string, message: string)
      modifies this
      ensures toasts == old(toasts) + [Toast(id, Info, message)]
    {
      AddToast(id, Info, message);
    }
  }
}
