/**
 * The frame binder (app.py, `ApplicationFrame`): it owns the widget
 * mapping, a dictionary from instance name to widget object that keeps
 * insertion order, builds it by running `_create_widget` over the
 * template's divs, assembles the client getters and the event-switch
 * cases, and forwards inbound named events to the widget they name.
 */
module Frames {
  import opened Wrappers
  import opened Declarations
  import opened Widgets
  import opened Markup
  import opened Binding

  /** The (name, class) entries of a widget mapping, in the given key order. */
  function EntriesOf<V>(order: seq<string>, widgets: map<string, Widget<V>>): (es: seq<Entry>)
    requires forall i :: 0 <= i < |order| ==> order[i] in widgets
    ensures Names(es) == order
    ensures forall i :: 0 <= i < |order| ==> es[i].cls == widgets[order[i]].cls
  {
    seq(|order|, i requires 0 <= i < |order| => Entry(order[i], widgets[order[i]].cls))
  }

  /** Inserting a new key at the end of the mapping appends one entry. */
  lemma EntriesOfInsert<V>(order: seq<string>, widgets: map<string, Widget<V>>, n: string, w: Widget<V>)
    requires forall i :: 0 <= i < |order| ==> order[i] in widgets
    requires n !in order
    ensures EntriesOf(order + [n], widgets[n := w]) == EntriesOf(order, widgets) + [Entry(n, w.cls)]
  {
    var a := EntriesOf(order + [n], widgets[n := w]);
    var b := EntriesOf(order, widgets) + [Entry(n, w.cls)];
    forall i | 0 <= i < |a| ensures a[i] == b[i] {
      if i < |order| {
        assert (order + [n])[i] == order[i] != n;
      }
    }
  }

  class Frame<V> {
    var order: seq<string>                   // the keys of `widgets` in insertion order
    var widgets: map<string, Widget<V>>
    var log: seq<LogEntry>                   // the error-level messages logged so far
    var getters: string                      // the concatenated client getters
    var dispatch: string                     // the cases of the inbound-event switch

    /** Keys are unique and kept in order, and each widget is stored under its own name. */
    ghost predicate Valid()
      reads this
    {
      && Distinct(order)
      && (forall n :: n in widgets <==> n in order)
      && (forall n :: n in widgets ==> widgets[n].name == n)
    }

    /** The mapping's entries and the log, as the binding specification sees them. */
    function Shape(): BuildState
      reads this
      requires Valid()
    {
      BuildState(EntriesOf(order, widgets), log)
    }

    /** The state of every widget, by name. */
    function Snapshot(): map<string, WidgetState<V>>
      reads this, widgets.Values
    {
      map n | n in widgets :: widgets[n].State()
    }

    /** A frame with no widgets yet (`self.widgets = {}`). */
    constructor Empty()
      ensures Valid() && Shape() == Start()
      ensures widgets == map[] && getters == "" && dispatch == ""
    {
      order := [];
      widgets := map[];
      log := [];
      getters := "";
      dispatch := "";
    }

    /**
     * `_create_widget` on one div. Returns false where the source raises:
     * the base class's empty markup has no node to replace the div with.
     */
    method CreateWidget(id: Option<string>) returns (ok: bool)
      requires Valid()
      modifies this
      ensures Valid()
      ensures ok <==> Step(old(Shape()), id).Some?
      ensures ok ==> Step(old(Shape()), id) == Some(Shape())
      ensures forall n :: n in old(widgets) ==> n in widgets && widgets[n] == old(widgets)[n]
      ensures forall n :: n in widgets && n !in old(widgets) ==> fresh(widgets[n]) && widgets[n].State() == Initial()
      ensures getters == old(getters) && dispatch == old(dispatch)
    {
      ghost var st := Shape();
      assert Names(st.entries) == order;
      ok := true;
      match Classify(id)
      case NotDeclared =>
      case Malformed(s) =>
        log := log + [InvalidFormat(s)];
        assert Step(st, id) == Some(st.(log := st.log + [InvalidFormat(s)]));
      case UnknownClass(x) =>
        log := log + [InvalidClass(x)];
        assert Step(st, id) == Some(st.(log := st.log + [InvalidClass(x)]));
      case Declares(c, n) =>
        if n in widgets {
          log := log + [ExistingName(n)];
        } else {
          AddWidget(c, n);
          ok := ToHtml(c, n) != "";
          assert ok == (c != Obj);
        }
    }

    /** Creates a widget of class `c` and inserts it under the new name `n`, last in order. */
    method AddWidget(c: WidgetClass, n: string)
      requires Valid() && n !in widgets
      modifies this
      ensures Valid()
      ensures order == old(order) + [n] && widgets == old(widgets)[n := widgets[n]]
      ensures fresh(widgets[n]) && widgets[n].State() == Initial()
      ensures EntriesOf(order, widgets) == EntriesOf(old(order), old(widgets)) + [Entry(n, c)]
      ensures log == old(log) && getters == old(getters) && dispatch == old(dispatch)
    {
      var w := new Widget(c, n);
      var order', widgets' := order + [n], widgets[n := w];
      DistinctAppend(order, n);
      assert forall m :: m in widgets' <==> m in order';
      EntriesOfInsert(order, widgets, n, w);
      widgets, order := widgets', order';
    }

    /**
     * `ApplicationFrame.__init__` without the file and markup handling: runs
     * `_create_widget` over the divs in document order, then assembles the
     * getters and the switch cases over the mapping. Returns null where the
     * construction raises.
     */
    static method Build(ids: seq<Option<string>>) returns (f: Frame?<V>)
      ensures f == null <==> Run(ids).None?
      ensures f != null ==> fresh(f) && f.Valid() && Run(ids) == Some(f.Shape())
      ensures f != null ==> forall n :: n in f.widgets ==> fresh(f.widgets[n]) && f.widgets[n].State() == Initial()
      ensures f != null ==> f.getters == Getters(f.Shape().entries) && f.dispatch == Dispatch(f.Shape().entries)
    {
      var frame := new Frame<V>.Empty();
      assert ids[..0] == [];
      var i := 0;
      while i < |ids|
        invariant 0 <= i <= |ids|
        invariant fresh(frame) && frame.Valid()
        invariant Run(ids[..i]) == Some(frame.Shape())
        invariant forall n :: n in frame.widgets ==> fresh(frame.widgets[n]) && frame.widgets[n].State() == Initial()
      {
        var ok := frame.CreateWidget(ids[i]);
        assert ids[..i + 1][..i] == ids[..i];
        if !ok {
          RunRaisedPrefix(ids, i + 1);
          return null;
        }
        i := i + 1;
      }
      assert ids[..|ids|] == ids;
      var entries := EntriesOf(frame.order, frame.widgets);
      frame.getters := Getters(entries);
      frame.dispatch := Dispatch(entries);
      f := frame;
    }

    /**
     * `frame_callback(name, v)`: forwards an inbound event to the widget it
     * names. An unknown name logs one error and changes no widget; a known
     * one changes that widget's state only, as its `callback` does.
     */
    method FrameCallback(name: string, v: V)
      requires Valid()
      modifies this`log, widgets.Values
      ensures Valid() && order == old(order) && widgets == old(widgets)
      ensures name in widgets ==>
        Snapshot() == old(Snapshot())[name := Apply(widgets[name].cls, old(Snapshot())[name], v)] && log == old(log)
      ensures name !in widgets ==>
        Snapshot() == old(Snapshot()) && log == old(log) + [InexistingObject(name)]
      ensures name in widgets ==> widgets[name].State() == Apply(widgets[name].cls, old(widgets[name].State()), v)
    {
      if name !in widgets {
        log := log + [InexistingObject(name)];
        return;
      }
      var w := widgets[name];
      w.Callback(v);
      forall n | n in widgets && n != name
        ensures widgets[n].State() == old(widgets[n].State())
      {
        assert widgets[n].name != w.name;
      }
    }

    /** `frame[name]`: the widget registered under `name`; `None` where the source raises `KeyError`. */
    method Get(name: string) returns (w: Option<Widget<V>>)
      ensures w.Some? <==> name in widgets
      ensures w.Some? ==> w.value == widgets[name]
    {
      if name in widgets {
        w := Some(widgets[name]);
      } else {
        w := None;
      }
    }
  }

  /**
   * On a frame whose only widget is the button `n`, still in its initial
   * state: registering a click callback and then delivering the inbound event
   * `{name: n, data: v}` stores `v` and fires the callback once.
   */
  method ClickOnlyButton<V>(f: Frame<V>, n: string, v: V) returns (value: Option<V>, clicks: nat)
    requires f.Valid() && f.Shape().entries == [Entry(n, ObjButton)]
    requires forall m :: m in f.widgets ==> f.widgets[m].State() == Initial()
    modifies f`log, f.widgets.Values
    ensures value == Some(v) && clicks == 1
  {
    assert f.order == [n] by {
      assert Names(f.Shape().entries) == [n];
    }
    assert n in f.widgets;
    var button := f.widgets[n];
    assert button.cls == ObjButton && button.State() == Initial();
    button.SetOnClick(true);
    assert button.State() == WidgetState(None, true, 0);
    f.FrameCallback(n, v);
    assert f.widgets[n] == button;
    assert button.State() == Apply(ObjButton, WidgetState(None, true, 0), v);
    value, clicks := button.value, button.clicks;
  }

  /**
   * End to end: a template holding the single div `obj.ObjButton.<n>` yields
   * a frame with one button `n`; after a click callback is registered on it,
   * the inbound event `{name: n, data: v}` stores `v` and fires the callback
   * once.
   */
  method ButtonEventScenario<V>(n: string, v: V) returns (value: Option<V>, clicks: nat)
    requires '.' !in n
    ensures value == Some(v) && clicks == 1
  {
    ButtonTemplateBinds(n);
    var f := Frame<V>.Build([Some("obj.ObjButton." + n)]);
    value, clicks := ClickOnlyButton(f, n, v);
  }
}
