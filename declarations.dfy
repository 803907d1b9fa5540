/**
 * Widget declarations in a template: an element whose `id` reads
 * `obj.<ClassName>.<instanceName>` asks for a widget of that class under
 * that name (app.py, `ApplicationFrame._create_widget`). The class name
 * is resolved against a closed registry of the three widget classes.
 */
module Declarations {
  import opened Wrappers
  import opened Strings

  /** The widget classes a declaration may name. */
  datatype WidgetClass = Obj | ObjInputText | ObjButton

  /** One entry of the widget mapping: an instance name and its class. */
  datatype Entry = Entry(name: string, cls: WidgetClass)

  /** The instance names of a sequence of entries, in order. */
  function Names(es: seq<Entry>): (ns: seq<string>)
    ensures |ns| == |es|
    ensures forall i :: 0 <= i < |es| ==> ns[i] == es[i].name
  {
    seq(|es|, i requires 0 <= i < |es| => es[i].name)
  }

  /** The name under which each class is declared in a template. */
  function ClassName(c: WidgetClass): string
  {
    match c
    case Obj => "Obj"
    case ObjInputText => "ObjInputText"
    case ObjButton => "ObjButton"
  }

  /** The registry: resolves a class name, the inverse of `ClassName`. */
  function ClassOf(name: string): (c: Option<WidgetClass>)
    ensures c.Some? ==> ClassName(c.value) == name
    ensures c.None? ==> forall k :: ClassName(k) != name
  {
    if name == "Obj" then Some(Obj)
    else if name == "ObjInputText" then Some(ObjInputText)
    else if name == "ObjButton" then Some(ObjButton)
    else None
  }

  /** What an element's `id` attribute declares. */
  datatype Declaration =
    | NotDeclared                       // no id, or first segment is not "obj": ignored silently
    | Malformed(id: string)             // not exactly three segments: logged and skipped
    | UnknownClass(className: string)   // second segment names no widget class: logged and skipped
    | Declares(cls: WidgetClass, name: string)

  /** Reads an element's optional `id` as a widget declaration. */
  function Classify(id: Option<string>): Declaration
  {
    match id
    case None => NotDeclared
    case Some(s) =>
      var parts := Split(s, '.');
      if parts[0] != "obj" then NotDeclared
      else if |parts| != 3 then Malformed(s)
      else match ClassOf(parts[1])
        case None => UnknownClass(parts[1])
        case Some(c) => Declares(c, parts[2])
  }

  /** A string's first dot-segment is "obj" exactly when it is "obj" or starts with "obj.". */
  lemma FirstSegmentIsObj(s: string)
    ensures Split(s, '.')[0] == "obj" <==> (s == "obj" || "obj." <= s)
  {
    var parts := Split(s, '.');
    JoinSplit(s, '.');
    if parts[0] == "obj" && |parts| > 1 {
      assert s == "obj" + "." + Join(parts[1..], '.');
    }
    if s == "obj" {
      SplitNoSeparator(s, '.');
    } else if "obj." <= s {
      assert s == "obj" + ['.'] + s[4..];
      SplitPrefix("obj", s[4..], '.');
    }
  }

  /** An element is ignored exactly when it has no id or the id does not begin with the segment "obj". */
  lemma ClassifyIgnores(id: Option<string>)
    ensures Classify(id) == NotDeclared <==> id.None? || !(id.value == "obj" || "obj." <= id.value)
  {
    if id.Some? {
      FirstSegmentIsObj(id.value);
    }
  }

  /** An "obj" id is malformed exactly when it does not hold exactly two dots. */
  lemma ClassifyMalformed(s: string)
    ensures Classify(Some(s)).Malformed? <==> (s == "obj" || "obj." <= s) && Count(s, '.') != 2
    ensures Classify(Some(s)).Malformed? ==> Classify(Some(s)).id == s
  {
    FirstSegmentIsObj(s);
  }

  /**
   * A declaration is accepted for class `c` and name `n` exactly when the id
   * is literally `obj.<ClassName(c)>.<n>` with no dot in `n`.
   */
  lemma ClassifyDeclares(s: string, c: WidgetClass, n: string)
    ensures Classify(Some(s)) == Declares(c, n) <==> s == "obj." + ClassName(c) + "." + n && '.' !in n
  {
    var parts := Split(s, '.');
    if Classify(Some(s)) == Declares(c, n) {
      JoinSplit(s, '.');
      assert parts == ["obj", ClassName(c), n];
      JoinThree("obj", ClassName(c), n);
    }
    if s == "obj." + ClassName(c) + "." + n && '.' !in n {
      var ps := ["obj", ClassName(c), n];
      JoinThree("obj", ClassName(c), n);
      assert "obj." == "obj" + ".";
      assert Join(ps, '.') == s;
      assert '.' !in ClassName(c) && ClassOf(ClassName(c)) == Some(c) by {
        match c
        case Obj =>
        case ObjInputText =>
        case ObjButton =>
      }
      SplitJoin(ps, '.');
    }
  }

  /** Joining three pieces on '.'. */
  lemma JoinThree(a: string, b: string, c: string)
    ensures Join([a, b, c], '.') == a + "." + b + "." + c
  {
    assert [a, b, c][1..] == [b, c];
    assert [b, c][1..] == [c];
    assert Join([c], '.') == c;
    assert Join([b, c], '.') == b + ['.'] + c;
    assert Join([a, b, c], '.') == a + ['.'] + (b + ['.'] + c);
  }
}
