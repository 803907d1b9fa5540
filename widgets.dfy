/**
 * Widget state (app.py, classes `Obj`, `ObjInputText`, `ObjButton`).
 * Every widget holds a name and a value that starts out as `None`; an
 * inbound client event overwrites the value. A button may also have a
 * registered zero-argument click callback, which fires after the update;
 * the model records whether one is registered and how often it fired.
 */
module Widgets {
  import opened Wrappers
  import opened Declarations

  /** The mutable part of a widget, as a value. */
  datatype WidgetState<V> = WidgetState(value: Option<V>, onClick: bool, clicks: nat)

  /** The state of a widget just created: no value, no click callback. */
  function Initial<V>(): WidgetState<V>
  {
    WidgetState(None, false, 0)
  }

  /** The effect of one `callback(v)` on a widget of class `cls`. */
  function Apply<V>(cls: WidgetClass, st: WidgetState<V>, v: V): WidgetState<V>
  {
    WidgetState(Some(v), st.onClick, if cls == ObjButton && st.onClick then st.clicks + 1 else st.clicks)
  }

  /** The effect of a series of `callback` calls, in order. */
  function ApplyAll<V>(cls: WidgetClass, st: WidgetState<V>, vs: seq<V>): WidgetState<V>
  {
    if vs == [] then st else Apply(cls, ApplyAll(cls, st, vs[..|vs|-1]), vs[|vs|-1])
  }

  /** A callback stores exactly the value it is given; nothing but the click count may change. */
  lemma ApplyStores<V>(cls: WidgetClass, st: WidgetState<V>, v: V)
    ensures Apply(cls, st, v).value == Some(v)
    ensures Apply(cls, st, v).onClick == st.onClick
    ensures cls != ObjButton ==> Apply(cls, st, v) == st.(value := Some(v))
  {
  }

  /** The click callback fires exactly once per call on a button that has one, and never otherwise. */
  lemma ApplyFiresClick<V>(cls: WidgetClass, st: WidgetState<V>, v: V)
    ensures Apply(cls, st, v).clicks == st.clicks + 1 <==> cls == ObjButton && st.onClick
    ensures Apply(cls, st, v).clicks == st.clicks <==> !(cls == ObjButton && st.onClick)
  {
  }

  /** Last write wins: after A then B the value is B, whatever A was. */
  lemma LastWriteWins<V>(cls: WidgetClass, st: WidgetState<V>, a: V, b: V)
    ensures Apply(cls, Apply(cls, st, a), b).value == Apply(cls, st, b).value == Some(b)
  {
  }

  /**
   * Applying the same value twice leaves the same stored value as applying it
   * once; for widgets without a click callback the whole state is the same.
   */
  lemma ApplyIdempotent<V>(cls: WidgetClass, st: WidgetState<V>, v: V)
    ensures Apply(cls, Apply(cls, st, v), v).value == Apply(cls, st, v).value
    ensures !(cls == ObjButton && st.onClick) ==> Apply(cls, Apply(cls, st, v), v) == Apply(cls, st, v)
  {
  }

  /**
   * Over a series of callbacks the value is the last one sent and the click
   * callback (when registered on a button) fired once per call.
   */
  lemma {:induction false} ApplyAllEffect<V>(cls: WidgetClass, st: WidgetState<V>, vs: seq<V>)
    ensures ApplyAll(cls, st, vs).value == if vs == [] then st.value else Some(vs[|vs|-1])
    ensures ApplyAll(cls, st, vs).onClick == st.onClick
    ensures ApplyAll(cls, st, vs).clicks == st.clicks + (if cls == ObjButton && st.onClick then |vs| else 0)
  {
    if vs != [] {
      ApplyAllEffect(cls, st, vs[..|vs|-1]);
    }
  }

  /** A widget object; `name` and `cls` never change after creation. */
  class Widget<V> {
    const name: string
    const cls: WidgetClass
    var value: Option<V>
    var onClick: bool
    var clicks: nat

    /** The mutable state as a value. */
    function State(): WidgetState<V>
      reads this
    {
      WidgetState(value, onClick, clicks)
    }

    /** `obj_class(obj_name)`: a fresh widget with value `None` and no click callback. */
    constructor (cls: WidgetClass, name: string)
      ensures this.cls == cls && this.name == name
      ensures State() == Initial()
    {
      this.cls := cls;
      this.name := name;
      value := None;
      onClick := false;
      clicks := 0;
    }

    /** `callback(v)`: store the value, then fire the click callback of a button that has one. */
    method Callback(v: V)
      modifies this
      ensures State() == Apply(cls, old(State()), v)
    {
      value := Some(v);
      if cls == ObjButton && onClick {
        clicks := clicks + 1;
      }
    }

    /** `set_on_click(cb)` on a button: `registered` tells whether `cb` is a callable or `None`. */
    method SetOnClick(registered: bool)
      requires cls == ObjButton
      modifies this
      ensures State() == old(State()).(onClick := registered)
    {
      onClick := registered;
    }
  }
}
