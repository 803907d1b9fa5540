# flask-gui-app: the widget-binding core in Dafny

flask-gui-app builds a browser control panel from an HTML template. Every
`div` whose `id` reads `obj.<Class>.<name>` becomes a server-side widget
object. The widget is registered under `<name>` in an insertion-ordered
dictionary, and its element is replaced by the widget's own markup. Client
script is then generated: one event-binding "getter" per widget, and one
`case '<name>':` entry per widget in the switch that routes inbound events.
At run time, an inbound event `{name, data}` is forwarded to the named
widget's `callback`. That callback stores the value and, for a button,
fires its registered click callback.

This project models that core in seven modules:

- `Strings`: Python's `str.split('.')` and `'.'.join`, with their round trips.
- `Declarations`: the closed class registry (`Obj`, `ObjInputText`,
  `ObjButton`) and the reading of an `id` as a declaration.
- `Widgets`: a widget's mutable state as a value (`WidgetState`, `Apply`)
  and the widget object as a class (`Widget`), whose methods are proved
  against `Apply`.
- `Markup`: `to_html`, `to_js_getter`, `to_js_setter`, the concatenated
  getters, and the dispatch block. `ParseCases` is a partner of the
  dispatch block that reads the case labels back.
- `Binding`: the binding pass as a function on values.
  - The template is abstracted to the sequence of its divs' optional ids,
    in document order.
  - `Step` models one `_create_widget` call and `Run` models the loop.
    Their result is the ordered (name, class) entries plus the logged
    errors, or `None` where the source raises.
  - The reference definition `FirstOccurrences(Decls(ids))` is proved
    equal to the pass.
- `Frames`: `ApplicationFrame` as a class.
  - Its fields are the name order, the widget map, the error log, and
    the generated getters and dispatch text.
  - `Build` runs `CreateWidget` in a loop and is proved against `Run`.
  - `FrameCallback` and `Get` model `frame_callback` and `__getitem__`.
- `Wrappers`: the `Option` type.

Where a natural-language description of the system and the code differ,
the model follows the code:

- Declaring the base class (`obj.Obj.<name>`) is sometimes described as
  yielding an empty fragment while the build continues.
  - In app.py:142-147 the widget is first inserted. Then `Obj.to_html()`
    returns the empty string, the parsed fragment's body has no first
    child, and indexing it raises, so the whole construction of the
    frame fails.
  - `Step` therefore returns `None` exactly when the declaration is the
    first one of its name and of class `Obj`, and `Frame.Build` returns
    null.
- `frame_callback` is sometimes described as returning a "not found"
  sentinel.
  - In app.py:215-221 it returns `None` on both paths, because
    `callback` returns nothing.
  - `FrameCallback` returns nothing. Its observable difference is the
    logged `InexistingObject` error.
- `callback` is sometimes described as idempotent for a repeated value.
  - For a button with a registered click callback, the code fires that
    callback once per call.
  - `ApplyIdempotent` proves idempotence of the stored value always, and
    of the whole state only when no click callback can fire.
- An instance name may be empty (`obj.ObjButton.`): `split` yields an
  empty third segment and the code accepts it. The model does the same.

## Model

| member | source | states |
|---|---|---|
| Strings.Split | app.py:124 | `split` yields one more piece than there are separators, and no piece contains the separator |
| Strings.JoinSplit | app.py:124 | joining the pieces of a split with the separator gives back the original id |
| Strings.SplitJoin | app.py:124 | splitting a join of separator-free pieces gives back exactly those pieces |
| Strings.SplitPrefix | app.py:124 | a separator-free prefix followed by a separator splits off as the first piece |
| Strings.SplitNoSeparator | app.py:124 | an id with no dot splits into itself alone |
| Declarations.ClassOf | app.py:132-135 | the registry resolves exactly the three class names, each to the class of that name; any other name resolves to nothing |
| Declarations.FirstSegmentIsObj | app.py:124-125 | the first dot-segment is "obj" exactly when the id is "obj" or starts with "obj." |
| Declarations.ClassifyIgnores | app.py:120-126 | a div is ignored exactly when it has no id or its id neither equals "obj" nor starts with "obj." |
| Declarations.ClassifyMalformed | app.py:124-130 | an "obj" id is reported as malformed exactly when it does not hold exactly two dots, and the report carries the whole id |
| Declarations.ClassifyDeclares | app.py:124-137 | an id declares class c and name n exactly when it is literally `obj.` + the class name + `.` + n, with no dot in n |
| Declarations.Classify | app.py:120-137 | reads an optional id as ignored, malformed, of an unknown class, or a declaration of a class and name, with the segment tests of `_create_widget` in the source's order; it carries no `ensures` of its own, and `ClassifyIgnores`, `ClassifyMalformed` and `ClassifyDeclares` state each outcome as an if-and-only-if on the id's text |
| Widgets.ApplyStores | app.py:59-61 | a callback stores exactly the value given, keeps the click registration, and for non-buttons changes nothing else |
| Widgets.ApplyFiresClick | app.py:99-102 | the click count rises by one exactly when the widget is a button with a registered click callback, and stays put otherwise |
| Widgets.LastWriteWins | app.py:59-61 | after callbacks with A then B, the stored value is B |
| Widgets.ApplyIdempotent | app.py:59-61 | a repeated callback with the same value leaves the same stored value, and the same whole state when no click callback can fire |
| Widgets.ApplyAllEffect | app.py:99-102 | after a series of callbacks the value is the last one sent, and a registered button callback fired once per call |
| Widgets.Apply | app.py:99-102 | the effect of one `callback(v)` (the base `callback` of app.py:59-61 followed, on a button, by the click callback); it carries no `ensures`, and `ApplyStores`, `ApplyFiresClick`, `LastWriteWins`, `ApplyIdempotent` and `ApplyAllEffect` specify it |
| Widgets.Widget.constructor | app.py:39-41 | a new widget keeps its class and name, has value `None` and no click callback |
| Widgets.Widget.Callback | app.py:99-102 | the widget's new state is `Apply` of its old state and the value |
| Widgets.Widget.SetOnClick | app.py:104-105 | registers or clears the click callback of a button, leaving value and click count as they were |
| Markup.ToHtml | app.py:43-47 | the markup is empty exactly for the base class |
| Markup.ToJsGetter | app.py:73-97 | the getter script of each class, in the source's text; it carries no `ensures`, and `BindingConsistent` states that it selects the element's id and emits the widget's own name |
| Markup.ToJsSetter | app.py:54-57 | the setter fragment, empty for every class since none overrides it; it carries no `ensures`, and `ParseCaseBlock` relies on its emptiness |
| Markup.Getters | app.py:165 | the getters of all widgets concatenated in mapping order; it carries no `ensures`, and `JoinMapAppend`, `JoinMapContains` and `EveryWidgetHasGetter` specify it |
| Markup.Dispatch | app.py:166 | the `case '<name>':` blocks of all widgets concatenated in mapping order; it carries no `ensures`, and `EveryWidgetDispatched` and `DispatchNamesRoundTrip` specify it |
| Markup.BindingConsistent | app.py:69-97 | for a concrete class, the element carries the name as its id, the getter selects that id, and the getter emits an event with that name (data `text` for an input, `'x'` for a button) |
| Markup.JoinMapAppend | app.py:165-166 | the concatenated fragments of a mapping split at any point are the fragments of the first part followed by those of the second, so the mapping's order is kept |
| Markup.JoinMapContains | app.py:165-166 | every widget's fragment occurs in the concatenation |
| Markup.EveryWidgetHasGetter | app.py:165 | every widget's getter script occurs among the concatenated getters |
| Markup.CaseBlockHasLabel | app.py:166 | each case block carries its widget's `case '<name>':` label |
| Markup.EveryWidgetDispatched | app.py:166 | every widget of the mapping has its `case '<name>':` label in the dispatch block |
| Markup.ParseCaseBlock | app.py:166 | a case block, whose setter is always empty, reads back as its name followed by whatever follows it |
| Markup.DispatchNamesRoundTrip | app.py:166 | when no name holds a quote, reading the dispatch block back yields exactly the mapping's names in insertion order |
| Binding.StepIgnores | app.py:120-126 | a div without an id, or whose id does not begin with the segment "obj", changes nothing and logs nothing |
| Binding.StepMalformed | app.py:128-130 | an "obj" id without exactly three segments leaves the mapping as it is and logs one "Invalid format" error |
| Binding.StepUnknownClass | app.py:131-134 | `obj.<x>.<n>` with an `x` outside the closed registry leaves the mapping as it is and logs one "Invalid class" error naming `x`; the source agrees for names that are not module globals (see the `globals()` line under Left out) |
| Binding.StepDuplicate | app.py:137-140 | a later declaration of a registered name keeps the first widget and logs one "Existing name" error |
| Binding.StepRegisters | app.py:137-147 | a well-formed declaration of a fresh name appends exactly one entry, keyed by the third segment, for a concrete class; for the base class the pass raises |
| Binding.Step | app.py:114-147 | one `_create_widget` call on the entries and log so far, or `None` where it raises; it carries no `ensures`, and `StepIgnores`, `StepMalformed`, `StepUnknownClass`, `StepDuplicate`, `StepRegisters` and `StepEffect` specify it |
| Binding.Run | app.py:161-163 | the loop over the divs in document order, stopping at the first that raises; it carries no `ensures`, and `RunMatchesFirstOccurrences`, `RunRaisedPrefix`, `RunAccounting`, `MappingNamesDistinct` and `WellFormedDeclarationsAllRegistered` specify it |
| Binding.StepEffect | app.py:114-147 | one div raises exactly when it is the first declaration of its name and of the base class; otherwise the mapping grows by the declared entry exactly when its name is new |
| Binding.RunMatchesFirstOccurrences | app.py:161-163 | the pass completes exactly when no first declaration of a name is of the base class, and the mapping is then the first declaration of every declared name, in document order |
| Binding.RunRaisedPrefix | app.py:161-163 | once a div raises, the pass raises whatever divs follow |
| Binding.RunAccounting | app.py:120-147 | every div not ignored either adds one widget or logs one error: mapping size plus errors equals the number of "obj" divs |
| Binding.MappingNamesDistinct | app.py:138-144 | the mapping never holds a name twice |
| Binding.WellFormedDeclarationsAllRegistered | app.py:161-163 | with distinct declared names the mapping holds one entry per declaration, in order, so its size is the number of accepted declarations |
| Binding.FirstOccurrencesNames | app.py:138-144 | a name is in the mapping exactly when some accepted declaration uses it |
| Binding.FirstOccurrencesDistinct | app.py:138-140 | keeping only the first declaration of each name leaves each name at most once |
| Binding.FirstOccurrencesOfDistinct | app.py:142-144 | declarations with distinct names are all kept |
| Binding.ButtonTemplateBinds | app.py:161-163 | a template with the single div `obj.ObjButton.<n>` binds one button named `n` and logs nothing |
| Binding.ButtonTemplateMarkup | app.py:161-166 | that template's button element carries id `n`, and the dispatch block holds `case '<n>':` |
| Binding.TwoSegmentTemplate | app.py:124-130 | a template whose single div is `obj.<x>` binds nothing, logs one "Invalid format" error and completes |
| Frames.EntriesOfInsert | app.py:144 | inserting a new key appends its entry after the existing ones |
| Frames.Frame.Empty | app.py:155 | a new frame has no widgets, an empty log and no generated text |
| Frames.Frame.CreateWidget | app.py:114-147 | the frame's new entries and log are those of `Step` on its old ones, and it reports failure exactly where `Step` raises; existing widgets are kept and a new one is fresh and initial |
| Frames.Frame.AddWidget | app.py:142-144 | creates a fresh initial widget and inserts it under the new name, last in order, keeping every other widget |
| Frames.Frame.Build | app.py:149-166 | the frame is null exactly when `Run` raises; otherwise its entries and log are `Run`'s, all widgets are fresh and initial, and the getters and dispatch text are those of its entries in order |
| Frames.Frame.FrameCallback | app.py:215-221 | an unknown name logs one "Inexisting object" error and changes no widget; a known one changes that widget's state as `Apply` does, and leaves every other widget as it was |
| Frames.Frame.Get | app.py:246-247 | yields the widget registered under the name, and nothing where the dictionary lookup fails |
| Frames.ClickOnlyButton | app.py:215-221 | on a frame whose only widget is an initial button, registering a click callback and delivering an event stores the value and fires the callback once |
| Frames.ButtonEventScenario | app.py:288-292 | from the template `obj.ObjButton.<n>`, an inbound event `{name: n, data: v}` after click registration leaves value `v` and one click |

## Left out

- HTML parsing and tree surgery with BeautifulSoup (app.py:146-147, 159-161, 197-202). The template is the sequence of its divs' optional ids, and replacing a div is modelled only through its effect: empty markup raises.
- The bootstrap script, the header block and `prettify` (app.py:168-202). This is fixed text around the generated getters and dispatch block, which are modelled.
- File I/O: reading the template and writing the `-gen.html` copy (app.py:157-158, 207-208).
- `Application`, the Flask view (`to_view`), SocketIO registration and emits, `send_user_event`, and ping/pong (app.py:230-304). These are transport and clock plumbing; `handler_user_event` appears only as the call to `FrameCallback` in `ButtonEventScenario`.
- Logging configuration and info-level messages. Only the error-level messages of the binding pass and of event dispatch are kept, as `LogEntry` values, with one exception: the "Unimplemented method !" error that `Obj.to_html` logs (app.py:46) is not recorded. It is logged only for a fresh `obj.Obj.<n>` declaration, where the source raises straight after (app.py:146-147) and `Step` returns `None`, so no completed pass loses a message.
- `frame_set` (app.py:223-228). It calls a `set` method that no widget class defines, so it cannot succeed for a registered name.
- The reflective `globals()` lookup (app.py:132-135) is modelled as a closed registry of the three widget classes. In the source, any other module-level name is found too: `obj.Flask.x`, `obj.time.x`, `obj.logger.x`, `obj.BeautifulSoup.x` and the like. For a fresh instance name the source then calls that object (app.py:142), and either the call or `to_html` (app.py:146) raises, so the construction aborts. The model instead logs `InvalidClass` and continues, and for a reused instance name it logs `InvalidClass` where the source logs "Existing name". So Binding.StepUnknownClass holds for names outside the module's globals, and the model has the closed registry in place of the module namespace.
- `__str__` of widgets and frames (app.py:63-64, 242-244).
- gevent monkey patching and concurrent sessions (app.py:12-13). The model is sequential.
- Widget values are a type parameter `V`. What the client sends is not inspected, and the click callback is a registration flag plus a counter of invocations: its own effects are not modelled.
- Widgets.Widget.SetOnClick: requires a button. `set_on_click` is defined only on `ObjButton` (app.py:104-105), so calling it on another widget raises `AttributeError` in the source; the model rules that call out instead of modelling the exception.
- test.py (a browser launcher around `os.system`) and the `__main__` demo.
