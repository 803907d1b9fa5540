/**
 * The text a frame generates for its widgets (app.py): each class's HTML
 * element (`to_html`), its client-side binding script (`to_js_getter`) and
 * its client-side setter (`to_js_setter`, empty for every class), and the
 * two script fragments the frame assembles over the whole widget mapping,
 * in insertion order: the concatenated getters and the `switch` cases
 * that route inbound named events.
 */
module Markup {
  import opened Wrappers
  import opened Declarations

  /** `t` occurs in `s` starting at index `i`. */
  predicate OccursAt(s: string, t: string, i: nat)
  {
    i + |t| <= |s| && s[i..i + |t|] == t
  }

  /** `t` occurs in `s` as a contiguous piece. */
  predicate Contains(s: string, t: string)
  {
    exists i: nat | i <= |s| :: OccursAt(s, t, i)
  }

  lemma ContainsSelf(t: string)
    ensures Contains(t, t)
  {
    assert OccursAt(t, t, 0);
  }

  lemma ContainsLeft(a: string, s: string, t: string)
    requires Contains(s, t)
    ensures Contains(a + s, t)
  {
    var i: nat :| i <= |s| && OccursAt(s, t, i);
    assert i + |t| <= |s|;
    assert (a + s)[|a| + i..|a| + i + |t|] == s[i..i + |t|];
    assert OccursAt(a + s, t, |a| + i);
  }

  lemma ContainsRight(s: string, b: string, t: string)
    requires Contains(s, t)
    ensures Contains(s + b, t)
  {
    var i: nat :| i <= |s| && OccursAt(s, t, i);
    assert i + |t| <= |s|;
    assert (s + b)[i..i + |t|] == s[i..i + |t|];
    assert OccursAt(s + b, t, i);
  }

  /** The `id` attribute that names an element after its widget. */
  function IdAttr(name: string): string
  {
    "id=\"" + name + "\""
  }

  /** The jQuery selector of the element named `name`. */
  function Select(name: string): string
  {
    "$('#" + name + "')"
  }

  /** The client call that sends the named event `{name, data}` to the server. */
  function Emit(name: string, data: string): string
  {
    "socket.emit('user_event', { 'name': '" + name + "', 'data': " + data + "})"
  }

  /** `to_html`: the element that replaces the declaring `div`; the base class renders nothing. */
  function ToHtml(cls: WidgetClass, name: string): (html: string)
    ensures html == "" <==> cls == Obj
  {
    match cls
    case Obj => ""
    case ObjInputText =>
      "<input type=\"text\" class=\"form-control\" " + IdAttr(name) + " placeholder=\"msg\"/>"
    case ObjButton =>
      "<button type=\"button\" class=\"btn btn-primary btn-lg\" " + IdAttr(name) + ">" + name + "</button>"
  }

  /** `to_js_getter`: client code that forwards the element's events to the server; empty for the base class. */
  function ToJsGetter(cls: WidgetClass, name: string): string
  {
    match cls
    case Obj => ""
    case ObjInputText =>
      "var " + name + "obj = " + Select(name) + ".on('change', function() {\n"
      + "   text = " + Select(name) + ".val()\n"
      + "   console.log('" + name + "modif: ' + text)\n"
      + "   " + Emit(name, "text") + "\n"
      + "})\n"
    case ObjButton =>
      "var " + name + "obj = " + Select(name) + ".on('click', function() {\n"
      + "   console.log('" + name + " clicked')\n"
      + "   " + Emit(name, "'x'") + "\n"
      + "})\n"
  }

  /** `to_js_setter`: no class overrides the base, so it is always empty. */
  function ToJsSetter(cls: WidgetClass): string
  {
    ""
  }

  /**
   * The generated binding is consistent for every concrete class: the element
   * carries the widget's name as its id, the client script selects that id,
   * and the event it emits carries the same name, so the server routes it
   * back to this widget. A text input sends the element's text, a button the
   * fixed value 'x'.
   */
  lemma BindingConsistent(cls: WidgetClass, name: string)
    requires cls != Obj
    ensures Contains(ToHtml(cls, name), IdAttr(name))
    ensures Contains(ToJsGetter(cls, name), Select(name))
    ensures Contains(ToJsGetter(cls, name), Emit(name, if cls == ObjButton then "'x'" else "text"))
  {
    ContainsSelf(IdAttr(name));
    ContainsSelf(Select(name));
    var data := if cls == ObjButton then "'x'" else "text";
    ContainsSelf(Emit(name, data));
    match cls
    case ObjInputText =>
      ContainsLeft("<input type=\"text\" class=\"form-control\" ", IdAttr(name), IdAttr(name));
      ContainsRight("<input type=\"text\" class=\"form-control\" " + IdAttr(name), " placeholder=\"msg\"/>", IdAttr(name));
      var p := "var " + name + "obj = ";
      ContainsLeft(p, Select(name), Select(name));
      var g1 := p + Select(name) + ".on('change', function() {\n";
      ContainsRight(p + Select(name), ".on('change', function() {\n", Select(name));
      var g2 := g1 + "   text = " + Select(name) + ".val()\n";
      ContainsRight(g1, "   text = ", Select(name));
      ContainsRight(g1 + "   text = ", Select(name), Select(name));
      ContainsRight(g1 + "   text = " + Select(name), ".val()\n", Select(name));
      var g3 := g2 + "   console.log('" + name + "modif: ' + text)\n" + "   ";
      ContainsRight(g2, "   console.log('", Select(name));
      ContainsRight(g2 + "   console.log('", name, Select(name));
      ContainsRight(g2 + "   console.log('" + name, "modif: ' + text)\n", Select(name));
      ContainsRight(g2 + "   console.log('" + name + "modif: ' + text)\n", "   ", Select(name));
      ContainsLeft(g3, Emit(name, data), Emit(name, data));
      ContainsRight(g3, Emit(name, data), Select(name));
      ContainsRight(g3 + Emit(name, data), "\n", Select(name));
      ContainsRight(g3 + Emit(name, data), "\n", Emit(name, data));
      ContainsRight(g3 + Emit(name, data) + "\n", "})\n", Select(name));
      ContainsRight(g3 + Emit(name, data) + "\n", "})\n", Emit(name, data));
    case ObjButton =>
      ContainsLeft("<button type=\"button\" class=\"btn btn-primary btn-lg\" ", IdAttr(name), IdAttr(name));
      ContainsRight("<button type=\"button\" class=\"btn btn-primary btn-lg\" " + IdAttr(name), ">", IdAttr(name));
      ContainsRight("<button type=\"button\" class=\"btn btn-primary btn-lg\" " + IdAttr(name) + ">", name, IdAttr(name));
      ContainsRight("<button type=\"button\" class=\"btn btn-primary btn-lg\" " + IdAttr(name) + ">" + name, "</button>", IdAttr(name));
      var p := "var " + name + "obj = ";
      ContainsLeft(p, Select(name), Select(name));
      var g1 := p + Select(name) + ".on('click', function() {\n";
      ContainsRight(p + Select(name), ".on('click', function() {\n", Select(name));
      var g3 := g1 + "   console.log('" + name + " clicked')\n" + "   ";
      ContainsRight(g1, "   console.log('", Select(name));
      ContainsRight(g1 + "   console.log('", name, Select(name));
      ContainsRight(g1 + "   console.log('" + name, " clicked')\n", Select(name));
      ContainsRight(g1 + "   console.log('" + name + " clicked')\n", "   ", Select(name));
      ContainsLeft(g3, Emit(name, data), Emit(name, data));
      ContainsRight(g3, Emit(name, data), Select(name));
      ContainsRight(g3 + Emit(name, data), "\n", Select(name));
      ContainsRight(g3 + Emit(name, data), "\n", Emit(name, data));
      ContainsRight(g3 + Emit(name, data) + "\n", "})\n", Select(name));
      ContainsRight(g3 + Emit(name, data) + "\n", "})\n", Emit(name, data));
  }

  /** `"".join(map(f, es))`: the pieces `f` gives for the entries, concatenated in order. */
  function JoinMap(es: seq<Entry>, f: Entry -> string): string
  {
    if es == [] then "" else f(es[0]) + JoinMap(es[1..], f)
  }

  /** The client binding script of one widget. */
  function GetterOf(e: Entry): string
  {
    ToJsGetter(e.cls, e.name)
  }

  /** The concatenated getters of the widget mapping, in insertion order. */
  function Getters(es: seq<Entry>): string
  {
    JoinMap(es, GetterOf)
  }

  const CaseOpen: string := "case '"
  const CaseClose: string := "':\n"
  const CaseEnd: string := "break;\n"

  /** The label `case '<name>':` of the event switch. */
  function CaseLabel(name: string): string
  {
    CaseOpen + name + CaseClose
  }

  /** The `case` of the event switch for one widget. */
  function CaseBlock(e: Entry): string
  {
    CaseLabel(e.name) + ToJsSetter(e.cls) + CaseEnd
  }

  /** The body of the inbound-event `switch`: one case per widget, in insertion order. */
  function Dispatch(es: seq<Entry>): string
  {
    JoinMap(es, CaseBlock)
  }

  /** Joining a concatenation is concatenating the joins. */
  lemma {:induction false} JoinMapAppend(a: seq<Entry>, b: seq<Entry>, f: Entry -> string)
    ensures JoinMap(a + b, f) == JoinMap(a, f) + JoinMap(b, f)
  {
    if a == [] {
      assert a + b == b;
    } else {
      JoinMapAppend(a[1..], b, f);
      assert (a + b)[1..] == a[1..] + b;
      assert (a + b)[0] == a[0];
    }
  }

  /** The piece of every entry occurs in the join. */
  lemma {:induction false} JoinMapContains(es: seq<Entry>, f: Entry -> string, i: nat)
    requires i < |es|
    ensures Contains(JoinMap(es, f), f(es[i]))
  {
    if i == 0 {
      ContainsSelf(f(es[0]));
      ContainsRight(f(es[0]), JoinMap(es[1..], f), f(es[0]));
    } else {
      JoinMapContains(es[1..], f, i - 1);
      assert es[1..][i - 1] == es[i];
      ContainsLeft(f(es[0]), JoinMap(es[1..], f), f(es[i]));
    }
  }

  /** Containment is transitive. */
  lemma ContainsTrans(s: string, m: string, t: string)
    requires Contains(s, m) && Contains(m, t)
    ensures Contains(s, t)
  {
    var j: nat :| j <= |s| && OccursAt(s, m, j);
    var k: nat :| k <= |m| && OccursAt(m, t, k);
    assert j + |m| <= |s| && s[j..j + |m|] == m;
    assert k + |t| <= |m| && m[k..k + |t|] == t;
    forall x | 0 <= x < |t|
      ensures s[j + k..j + k + |t|][x] == t[x]
    {
      assert s[j + k..j + k + |t|][x] == s[j + k + x];
      assert s[j + k + x] == s[j..j + |m|][k + x] == m[k + x];
      assert m[k + x] == m[k..k + |t|][x];
    }
    assert OccursAt(s, t, j + k);
  }

  /** A case block starts with its label. */
  lemma CaseBlockHasLabel(e: Entry)
    ensures Contains(CaseBlock(e), CaseLabel(e.name))
  {
    var lbl := CaseLabel(e.name);
    ContainsSelf(lbl);
    ContainsRight(lbl, ToJsSetter(e.cls), lbl);
    ContainsRight(lbl + ToJsSetter(e.cls), CaseEnd, lbl);
  }

  /** Every widget of the mapping has its `case '<name>':` label in the dispatch block. */
  lemma EveryWidgetDispatched(es: seq<Entry>, i: nat)
    requires i < |es|
    ensures Contains(Dispatch(es), CaseLabel(es[i].name))
  {
    JoinMapContains(es, CaseBlock, i);
    CaseBlockHasLabel(es[i]);
    ContainsTrans(Dispatch(es), CaseBlock(es[i]), CaseLabel(es[i].name));
  }

  /** Every widget of the mapping has its binding script among the getters. */
  lemma EveryWidgetHasGetter(es: seq<Entry>, i: nat)
    requires i < |es|
    ensures Contains(Getters(es), ToJsGetter(es[i].cls, es[i].name))
  {
    JoinMapContains(es, GetterOf, i);
  }

  /** Index of the first quote in `s`, or `|s|` if there is none. */
  function QuoteIndex(s: string): (k: nat)
    ensures k <= |s|
    ensures forall j :: 0 <= j < k ==> s[j] != '\''
    ensures k < |s| ==> s[k] == '\''
  {
    if s == [] || s[0] == '\'' then 0 else 1 + QuoteIndex(s[1..])
  }

  /**
   * Reads the case labels back out of a dispatch block: the partner of
   * `Dispatch`, used to show that the block names exactly the widgets of the
   * mapping in their order.
   */
  function ParseCases(s: string): Option<seq<string>>
    decreases |s|
  {
    if s == [] then Some([])
    else if !(CaseOpen <= s) then None
    else
      var rest := s[|CaseOpen|..];
      var k := QuoteIndex(rest);
      var tail := rest[k..];
      if !(CaseClose + CaseEnd <= tail) then None
      else match ParseCases(tail[|CaseClose + CaseEnd|..])
        case None => None
        case Some(ns) => Some([rest[..k]] + ns)
  }

  lemma PrefixSplit(a: string, b: string)
    ensures a <= a + b
    ensures (a + b)[..|a|] == a && (a + b)[|a|..] == b
  {
  }

  /** One case block whose name holds no quote is read back as that name. */
  lemma ParseCaseBlock(e: Entry, d: string)
    requires '\'' !in e.name
    ensures ParseCases(CaseBlock(e) + d) ==
      if ParseCases(d).Some? then Some([e.name] + ParseCases(d).value) else None
  {
    var n := e.name;
    var close := CaseClose + CaseEnd;
    var rest := n + (close + d);
    var s := CaseBlock(e) + d;
    assert s == CaseOpen + rest;
    PrefixSplit(CaseOpen, rest);
    assert s != [];
    var k := QuoteIndex(rest);
    assert close[0] == '\'';
    assert rest[|n|] == '\'';
    assert k == |n|;
    PrefixSplit(n, close + d);
    PrefixSplit(close, d);
  }

  /**
   * When no widget name contains a quote, the dispatch block determines the
   * widget names and their order.
   */
  lemma {:induction false} DispatchNamesRoundTrip(es: seq<Entry>)
    requires forall i :: 0 <= i < |es| ==> '\'' !in es[i].name
    ensures ParseCases(Dispatch(es)) == Some(Names(es))
  {
    if es != [] {
      DispatchNamesRoundTrip(es[1..]);
      assert Dispatch(es) == CaseBlock(es[0]) + Dispatch(es[1..]);
      ParseCaseBlock(es[0], Dispatch(es[1..]));
      assert Names(es) == [es[0].name] + Names(es[1..]);
    }
  }
}
