/**
 * The template-to-widget binding pass as a function on values (app.py,
 * `ApplicationFrame._create_widget` and the loop over the template's
 * `div` elements in `ApplicationFrame.__init__`). The template is
 * abstracted to the sequence of the divs' optional `id` attributes in
 * document order; the result is the insertion-ordered widget mapping and
 * the error messages logged along the way, or `None` when the pass raises.
 */
module Binding {
  import opened Wrappers
  import opened Strings
  import opened Declarations
  import opened Markup

  /** The error-level messages the binding pass and event dispatch log. */
  datatype LogEntry =
    | InvalidFormat(id: string)         // "Invalid format"
    | InvalidClass(className: string)   // "Invalid class"
    | ExistingName(name: string)        // "Existing name"
    | InexistingObject(name: string)    // "Inexisting object"

  /** The widget mapping as (name, class) entries in insertion order, and the log so far. */
  datatype BuildState = BuildState(entries: seq<Entry>, log: seq<LogEntry>)

  /** The state before the first div. */
  function Start(): BuildState
  {
    BuildState([], [])
  }

  predicate Distinct(ns: seq<string>)
  {
    forall i, j :: 0 <= i < j < |ns| ==> ns[i] != ns[j]
  }

  /** A name not yet present keeps the sequence free of repeats. */
  lemma DistinctAppend(ns: seq<string>, n: string)
    requires Distinct(ns) && n !in ns
    ensures Distinct(ns + [n])
  {
    forall i, j | 0 <= i < j < |ns + [n]| ensures (ns + [n])[i] != (ns + [n])[j] {
      if j == |ns| {
        assert (ns + [n])[i] == ns[i];
      }
    }
  }

  /** No entry is of the base class. */
  predicate NoBaseClass(es: seq<Entry>)
  {
    forall i :: 0 <= i < |es| ==> es[i].cls != Obj
  }

  /**
   * `_create_widget` on one div. A fresh widget is inserted before its markup
   * replaces the div; that replacement takes the first node of the parsed
   * markup, which does not exist when the markup is empty, so the pass
   * raises (`None`).
   */
  function Step(st: BuildState, id: Option<string>): Option<BuildState>
  {
    match Classify(id)
    case NotDeclared => Some(st)
    case Malformed(s) => Some(st.(log := st.log + [InvalidFormat(s)]))
    case UnknownClass(x) => Some(st.(log := st.log + [InvalidClass(x)]))
    case Declares(c, n) =>
      if n in Names(st.entries) then Some(st.(log := st.log + [ExistingName(n)]))
      else if ToHtml(c, n) == "" then None
      else Some(st.(entries := st.entries + [Entry(n, c)]))
  }

  /** The loop over all divs in document order; stops at the first that raises. */
  function Run(ids: seq<Option<string>>): Option<BuildState>
  {
    if ids == [] then Some(Start())
    else match Run(ids[..|ids| - 1])
      case None => None
      case Some(st) => Step(st, ids[|ids| - 1])
  }

  /** The entry a single id declares, if it is a well-formed declaration of a known class. */
  function DeclOf(id: Option<string>): (ds: seq<Entry>)
    ensures |ds| <= 1
  {
    match Classify(id)
    case Declares(c, n) => [Entry(n, c)]
    case _ => []
  }

  /** The well-formed declarations of known classes among the ids, in document order. */
  function Decls(ids: seq<Option<string>>): seq<Entry>
  {
    if ids == [] then [] else Decls(ids[..|ids| - 1]) + DeclOf(ids[|ids| - 1])
  }

  /** Keeps each declaration whose name no earlier declaration used. */
  function FirstOccurrences(ds: seq<Entry>): seq<Entry>
  {
    if ds == [] then []
    else
      var init := ds[..|ds| - 1];
      var e := ds[|ds| - 1];
      FirstOccurrences(init) + (if e.name in Names(init) then [] else [e])
  }

  /** Number of ids whose first dot-segment is "obj": the divs the pass does not ignore. */
  function Declared(ids: seq<Option<string>>): nat
  {
    if ids == [] then 0
    else Declared(ids[..|ids| - 1]) + (if Classify(ids[|ids| - 1]) == NotDeclared then 0 else 1)
  }

  lemma NoBaseClassAppend(a: seq<Entry>, b: seq<Entry>)
    ensures NoBaseClass(a + b) <==> NoBaseClass(a) && NoBaseClass(b)
  {
    if NoBaseClass(a + b) {
      forall i | 0 <= i < |a| ensures a[i].cls != Obj {
        assert a[i] == (a + b)[i];
      }
      forall i | 0 <= i < |b| ensures b[i].cls != Obj {
        assert b[i] == (a + b)[|a| + i];
      }
    }
  }

  lemma NamesAppend(a: seq<Entry>, b: seq<Entry>)
    ensures Names(a + b) == Names(a) + Names(b)
  {
  }

  /** A name survives deduplication exactly when some declaration uses it. */
  lemma {:induction false} FirstOccurrencesNames(ds: seq<Entry>)
    ensures forall n :: n in Names(FirstOccurrences(ds)) <==> n in Names(ds)
  {
    if ds != [] {
      var init, e := ds[..|ds| - 1], ds[|ds| - 1];
      var extra := if e.name in Names(init) then [] else [e];
      FirstOccurrencesNames(init);
      assert ds == init + [e];
      NamesAppend(init, [e]);
      NamesAppend(FirstOccurrences(init), extra);
      assert Names(FirstOccurrences(ds)) == Names(FirstOccurrences(init)) + Names(extra);
      assert Names(ds) == Names(init) + [e.name];
      forall n ensures n in Names(FirstOccurrences(ds)) <==> n in Names(ds) {
        assert n in Names(extra) ==> n == e.name;
      }
    }
  }

  /** Deduplication leaves every name at most once. */
  lemma {:induction false} FirstOccurrencesDistinct(ds: seq<Entry>)
    ensures Distinct(Names(FirstOccurrences(ds)))
  {
    if ds != [] {
      var init, e := ds[..|ds| - 1], ds[|ds| - 1];
      FirstOccurrencesDistinct(init);
      FirstOccurrencesNames(init);
      NamesAppend(FirstOccurrences(init), if e.name in Names(init) then [] else [e]);
    }
  }

  /** Declarations with distinct names are all kept. */
  lemma {:induction false} FirstOccurrencesOfDistinct(ds: seq<Entry>)
    requires Distinct(Names(ds))
    ensures FirstOccurrences(ds) == ds
  {
    if ds != [] {
      var init, e := ds[..|ds| - 1], ds[|ds| - 1];
      assert ds == init + [e];
      NamesAppend(init, [e]);
      assert Distinct(Names(init));
      FirstOccurrencesOfDistinct(init);
      assert e.name !in Names(init);
    }
  }

  /**
   * What one div does to the mapping: it raises exactly when it is the first
   * declaration of a name and of the base class; otherwise it appends the
   * declared entry when the name is fresh and keeps the mapping otherwise.
   */
  lemma StepEffect(st: BuildState, id: Option<string>)
    ensures Step(st, id).None? <==>
      (DeclOf(id) != [] && DeclOf(id)[0].name !in Names(st.entries) && DeclOf(id)[0].cls == Obj)
    ensures Step(st, id).Some? ==>
      Step(st, id).value.entries ==
        st.entries + (if DeclOf(id) != [] && DeclOf(id)[0].name !in Names(st.entries) then DeclOf(id) else [])
  {
  }

  /** Declarations of a longer template: those of the shorter one, then the new div's. */
  lemma DeclsSnoc(ids: seq<Option<string>>)
    requires ids != []
    ensures Decls(ids) == Decls(ids[..|ids| - 1]) + DeclOf(ids[|ids| - 1])
  {
  }

  /** Deduplicating one more declaration keeps it exactly when its name is new. */
  lemma FirstOccurrencesSnoc(d: seq<Entry>, extra: seq<Entry>)
    requires |extra| <= 1
    ensures FirstOccurrences(d + extra) ==
      FirstOccurrences(d) + (if extra != [] && extra[0].name !in Names(d) then extra else [])
  {
    if extra == [] {
      assert d + extra == d;
    } else {
      assert extra == [extra[0]];
      assert (d + extra)[..|d + extra| - 1] == d;
    }
  }

  /**
   * One more declaration against a mapping with no base-class entry: it is
   * appended when its name is not yet mapped, and the result is free of the
   * base class unless that appended declaration is of it.
   */
  lemma FirstOccurrencesExtend(d: seq<Entry>, ds: seq<Entry>)
    requires |ds| <= 1 && NoBaseClass(FirstOccurrences(d))
    ensures FirstOccurrences(d + ds) ==
      FirstOccurrences(d) + (if ds != [] && ds[0].name !in Names(FirstOccurrences(d)) then ds else [])
    ensures NoBaseClass(FirstOccurrences(d + ds)) <==>
      !(ds != [] && ds[0].name !in Names(FirstOccurrences(d)) && ds[0].cls == Obj)
  {
    FirstOccurrencesSnoc(d, ds);
    if ds != [] {
      FirstOccurrencesNames(d);
      assert ds[0].name in Names(FirstOccurrences(d)) <==> ds[0].name in Names(d);
      assert ds == [ds[0]];
      NoBaseClassAppend(FirstOccurrences(d), ds);
    } else {
      assert FirstOccurrences(d) + [] == FirstOccurrences(d);
    }
  }

  /** The induction step of `RunMatchesFirstOccurrences` for a pass that has not raised. */
  lemma RunStepMatches(st: BuildState, id: Option<string>, d: seq<Entry>)
    requires st.entries == FirstOccurrences(d) && NoBaseClass(st.entries)
    ensures Step(st, id).Some? <==> NoBaseClass(FirstOccurrences(d + DeclOf(id)))
    ensures Step(st, id).Some? ==> Step(st, id).value.entries == FirstOccurrences(d + DeclOf(id))
  {
    StepEffect(st, id);
    FirstOccurrencesExtend(d, DeclOf(id));
  }

  /**
   * The binding pass against its reference: it completes exactly when no
   * first declaration of a name is of the base class, and then the mapping
   * holds exactly the first declaration of every declared name, in document
   * order; later declarations of a name are dropped.
   */
  lemma {:induction false} RunMatchesFirstOccurrences(ids: seq<Option<string>>)
    ensures Run(ids).Some? <==> NoBaseClass(FirstOccurrences(Decls(ids)))
    ensures Run(ids).Some? ==> Run(ids).value.entries == FirstOccurrences(Decls(ids))
  {
    if ids != [] {
      var init, id := ids[..|ids| - 1], ids[|ids| - 1];
      RunMatchesFirstOccurrences(init);
      var d := Decls(init);
      DeclsSnoc(ids);
      FirstOccurrencesSnoc(d, DeclOf(id));
      var extra := if DeclOf(id) != [] && DeclOf(id)[0].name !in Names(d) then DeclOf(id) else [];
      NoBaseClassAppend(FirstOccurrences(d), extra);
      if Run(init).Some? {
        RunStepMatches(Run(init).value, id, d);
      }
    }
  }

  /** Once a div raises, the pass raises whatever divs follow. */
  lemma {:induction false} RunRaisedPrefix(ids: seq<Option<string>>, k: nat)
    requires k <= |ids|
    requires Run(ids[..k]).None?
    ensures Run(ids).None?
    decreases |ids| - k
  {
    if k < |ids| {
      assert ids[..k + 1][..k] == ids[..k];
      RunRaisedPrefix(ids, k + 1);
    } else {
      assert ids[..k] == ids;
    }
  }

  /** Every div that is not ignored either adds exactly one widget or logs exactly one error. */
  lemma {:induction false} RunAccounting(ids: seq<Option<string>>)
    requires Run(ids).Some?
    ensures |Run(ids).value.entries| + |Run(ids).value.log| == Declared(ids)
  {
    if ids != [] {
      RunAccounting(ids[..|ids| - 1]);
    }
  }

  /** The mapping never holds a name twice. */
  lemma MappingNamesDistinct(ids: seq<Option<string>>)
    requires Run(ids).Some?
    ensures Distinct(Names(Run(ids).value.entries))
  {
    RunMatchesFirstOccurrences(ids);
    FirstOccurrencesDistinct(Decls(ids));
  }

  /**
   * With well-formed declarations whose names are all different, the mapping
   * has one entry per declaration, keyed by its declared name, in order.
   */
  lemma WellFormedDeclarationsAllRegistered(ids: seq<Option<string>>)
    requires Run(ids).Some?
    requires Distinct(Names(Decls(ids)))
    ensures Run(ids).value.entries == Decls(ids)
    ensures |Run(ids).value.entries| == |Decls(ids)|
  {
    RunMatchesFirstOccurrences(ids);
    FirstOccurrencesOfDistinct(Decls(ids));
  }

  /** A div without an id, or whose id does not begin with the segment "obj", changes nothing and logs nothing. */
  lemma StepIgnores(st: BuildState, id: Option<string>)
    requires id.None? || !(id.value == "obj" || "obj." <= id.value)
    ensures Step(st, id) == Some(st)
  {
    ClassifyIgnores(id);
  }

  /** An "obj" id without exactly three segments is skipped with one logged error; the pass goes on. */
  lemma StepMalformed(st: BuildState, s: string)
    requires s == "obj" || "obj." <= s
    requires Count(s, '.') != 2
    ensures Step(st, Some(s)) == Some(st.(log := st.log + [InvalidFormat(s)]))
  {
    ClassifyMalformed(s);
  }

  /** An id `obj.<x>.<n>` whose class name `x` is not registered is skipped with one logged error. */
  lemma StepUnknownClass(st: BuildState, x: string, n: string)
    requires '.' !in x && '.' !in n
    requires ClassOf(x).None?
    ensures Step(st, Some("obj." + x + "." + n)) == Some(st.(log := st.log + [InvalidClass(x)]))
  {
    var s := "obj." + x + "." + n;
    JoinThree("obj", x, n);
    assert "obj." == "obj" + ".";
    SplitJoin(["obj", x, n], '.');
  }

  /** A later declaration of a registered name leaves the mapping as it is and logs one error. */
  lemma StepDuplicate(st: BuildState, c: WidgetClass, n: string)
    requires '.' !in n
    requires n in Names(st.entries)
    ensures Step(st, Some("obj." + ClassName(c) + "." + n)) == Some(st.(log := st.log + [ExistingName(n)]))
  {
    ClassifyDeclares("obj." + ClassName(c) + "." + n, c, n);
  }

  /**
   * A well-formed declaration of a fresh name adds exactly one entry, keyed by
   * the third segment, for a concrete class; for the base class the pass raises.
   */
  lemma StepRegisters(st: BuildState, c: WidgetClass, n: string)
    requires '.' !in n
    requires n !in Names(st.entries)
    ensures c != Obj ==> Step(st, Some("obj." + ClassName(c) + "." + n)) == Some(st.(entries := st.entries + [Entry(n, c)]))
    ensures c == Obj ==> Step(st, Some("obj." + ClassName(c) + "." + n)).None?
  {
    ClassifyDeclares("obj." + ClassName(c) + "." + n, c, n);
  }

  /** Running the pass on a single div is one step from the start. */
  lemma RunSingle(id: Option<string>)
    ensures Run([id]) == Step(Start(), id)
  {
    assert [id][..0] == [];
  }

  /** A template with the single div `obj.ObjButton.<n>` binds one button named `n` and logs nothing. */
  lemma ButtonTemplateBinds(n: string)
    requires '.' !in n
    ensures Run([Some("obj.ObjButton." + n)]) == Some(BuildState([Entry(n, ObjButton)], []))
  {
    RunSingle(Some("obj.ObjButton." + n));
    assert "obj.ObjButton." + n == "obj." + ClassName(ObjButton) + "." + n;
    assert Names([]) == [];
    assert [] + [Entry(n, ObjButton)] == [Entry(n, ObjButton)];
    StepRegisters(Start(), ObjButton, n);
  }

  /**
   * The page built from that template has a button element with id `n` and a
   * `case '<n>':` entry in the event switch.
   */
  lemma ButtonTemplateMarkup(n: string)
    requires '.' !in n
    ensures Contains(ToHtml(ObjButton, n), IdAttr(n))
    ensures Run([Some("obj.ObjButton." + n)]).Some?
    ensures Contains(Dispatch(Run([Some("obj.ObjButton." + n)]).value.entries), CaseLabel(n))
  {
    ButtonTemplateBinds(n);
    BindingConsistent(ObjButton, n);
    EveryWidgetDispatched([Entry(n, ObjButton)], 0);
  }

  /**
   * A template whose single div has a two-segment id such as `obj.ObjButton`
   * binds nothing, logs one error and completes.
   */
  lemma TwoSegmentTemplate(x: string)
    requires '.' !in x
    ensures Run([Some("obj." + x)]) == Some(BuildState([], [InvalidFormat("obj." + x)]))
  {
    RunSingle(Some("obj." + x));
    assert Join(["obj", x], '.') == "obj." + x by {
      assert ["obj", x][1..] == [x];
    }
    SplitJoin(["obj", x], '.');
    var s := "obj." + x;
    assert Split(s, '.') == ["obj", x];
    assert Classify(Some(s)) == Malformed(s);
    assert Start().log + [InvalidFormat(s)] == [InvalidFormat(s)];
  }
}
