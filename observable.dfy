/** `Dynamic<T>`: a value box whose listener hears every new value. A
    listener is a closure in the source; here it is known by its identity,
    and the calls made to listeners are recorded in the ghost log
    `notifications`, so that "called once with this value" can be stated. */
module Observable {
  import opened Wrappers

  /** The identity of a listener closure `(T) -> ()`. */
  datatype Listener = Listener(id: nat)

  /** One call of a listener with a value. */
  datatype Notification<T> = Notification(listener: Listener, value: T)

  /** The calls `listener?(v)` makes: one call when a listener is set, none otherwise. */
  function Fired<T>(listener: Option<Listener>, v: T): (calls: seq<Notification<T>>)
    ensures |calls| == if listener.Some? then 1 else 0
    ensures forall n :: n in calls ==> n.listener == listener.value && n.value == v
  {
    match listener
    case Some(f) => [Notification(f, v)]
    case None => []
  }

  class Dynamic<T> {
    var listener: Option<Listener>
    var value: T
    /** Every listener call made through this box, oldest first. */
    ghost var notifications: seq<Notification<T>>

    /** `init(_:)`: property observers do not run in an initialiser, so no
        listener is called. */
    constructor (v: T)
      ensures value == v && listener == None && notifications == []
    {
      value := v;
      listener := None;
      notifications := [];
    }

    /** `bind(_:)`: replaces the listener without calling it. */
    method Bind(l: Option<Listener>)
      modifies this
      ensures listener == l
      ensures value == old(value) && notifications == old(notifications)
    {
      listener := l;
    }

    /** `bindAndFire(_:)`: replaces the listener, then calls it once with the
        current value. */
    method BindAndFire(l: Option<Listener>)
      modifies this
      ensures listener == l && value == old(value)
      ensures notifications == old(notifications) + Fired(l, old(value))
    {
      listener := l;
      notifications := notifications + Fired(l, value);
    }

    /** Assigning `value`: its `didSet` calls the current listener once with
        the new value; with no listener only the value changes. */
    method SetValue(v: T)
      modifies this
      ensures value == v && listener == old(listener)
      ensures notifications == old(notifications) + Fired(old(listener), v)
    {
      value := v;
      notifications := notifications + Fired(listener, value);
    }
  }

  /** What a caller can rely on: binding is silent, each assignment is heard
      exactly once by the listener bound at that time, and a fired bind
      hears the current value. */
  method BindAssignFire<T>(d: Dynamic<T>, first: Listener, second: Listener, v: T, w: T)
    modifies d
    ensures d.value == w && d.listener == Some(second)
    ensures d.notifications == old(d.notifications)
      + [Notification(first, v), Notification(second, v), Notification(second, w)]
  {
    d.Bind(Some(first));
    d.SetValue(v);
    d.BindAndFire(Some(second));
    d.SetValue(w);
  }
}
