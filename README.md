# edge-php element builder, modelled in Dafny

edge-php builds HTML as a tree of element objects. Factory functions such as `div(...)`,
`h($tag, ...)`, `row(...)`, `panel(...)` and `form_field(...)` create the elements.
A first argument such as `.a.b#x` is a selector that sets the class and the id.
The other arguments become children, which may be elements, strings, arrays or nulls.
Dynamic setters (`->href('x')`, `->class([...])`, `->label('Name')`) fill in attributes and
declared properties. Mixins (`->with(icon('fa fa-user'))`) push extra children.
`render(...)` turns the tree into markup.

The model has two layers:

- **Values** (`Tree.Value`, `Tree.Node`). An element's state is a `Node`: its class, id,
  children, attributes and declared properties. Every operation of `Element`,
  `HTMLElement`, `FormField`, `Panel` and the helpers is a function on these values.
  The renderer (`Edge.RenderSeq` / `RenderValue` / `OwnRender`) is a mutually recursive
  function over them. It terminates by a size measure: a composite weighs more than the
  tree its `render()` builds.
- **Objects** (`Objects.Element`, `Objects.IconMixin`). These are classes with the same
  fields. Their methods update them in place, with the source's loops. Each method is
  proved to leave `Snapshot() == F(old(Snapshot()))` for the matching value-level
  function `F`.

Files:

- `wrappers.dfy`: Option and Result.
- `tree.dfy`: PHP values, truthiness, `empty()`, interpolation, ordered arrays.
- `helpers.dfy`: `enum`, `classList`, `when`, `at`, `map`, `array_of`.
- `selector.dfy`: `extractSelector` and its regular expression.
- `element.dfy`: the element operations.
- `html_element.dfy`: attribute serialisation.
- `catalog.dfy`: the factories.
- `composites.dfy`: `Panel` and `FormField`.
- `edge.dfy`: the renderer.
- `objects.dfy`: the classes.

Source paths below are relative to the repository root.

## Model

| member | source | states |
|---|---|---|
| Tree.IntText | src/Edge/HTML/Interfaces/HTMLElement.php:87-89 | an integer prints as a non-empty decimal text that starts with `-` exactly when it is negative |
| Tree.NatTextValue | src/Edge/HTML/Interfaces/HTMLElement.php:87-89 | reading the decimal text of a natural number back gives that number |
| Tree.IntTextValue | src/Edge/HTML/Interfaces/HTMLElement.php:87-89 | the text of an integer denotes that integer: a leading `-` negates the digits after it |
| Tree.Interpolate | src/Edge/FormField.php:21-22 | `"$x"` fails exactly on objects; a string interpolates as itself, null and `false` as '', an integer as its digits, a resource as `Resource id #N` |
| Tree.Lookup | src/globals/helpers.php:30 | reading an ordered PHP array finds nothing exactly when no entry has the key; otherwise the value of the first entry with that key |
| Tree.Put | src/Edge/HTML/Interfaces/HTMLElement.php:60 | `$a[$k] = $v`: an existing key keeps its position (the key list is unchanged); a new key goes last |
| Tree.PutLookup | src/Edge/HTML/Interfaces/HTMLElement.php:60 | after `$a[$k] = $v`, reading `$k` gives `$v` and every other key reads as before |
| Helpers.Kept | src/globals/helpers.php:77 | the filter of `enum` keeps no '' item |
| Helpers.KeptMembers | src/globals/helpers.php:77 | a value is kept exactly when it is among the arguments and is neither null nor '' |
| Helpers.JoinSnoc | src/globals/helpers.php:77 | joining one more item appends the delimiter and the item |
| Helpers.KeptAppend | src/globals/helpers.php:77 | filtering distributes over concatenation of the argument lists |
| Helpers.Join | src/globals/helpers.php:77 | no contract of its own: `join` of no items is '', of one item the item, otherwise the items with the delimiter between; `JoinSnoc` states its law |
| Helpers.ItemTexts | src/globals/helpers.php:77 | `join` turns every item into text as interpolation does, in place; it fails exactly when some item is an object |
| Helpers.ItemTextsAppend | src/globals/helpers.php:77 | converting two lists one after the other gives the texts of the first then those of the second; the first error wins |
| Helpers.Enum | src/globals/helpers.php:75-78 | `enum` throws exactly when a kept argument cannot be interpolated (an object), and is '' when every argument is null or '' |
| Helpers.EnumPair | src/Edge/Element.php:82-85 | `enum(' ', a, b)` is `b` when `a` is '', `a` when `b` is '', else `a b` |
| Helpers.EnumSnoc | src/globals/helpers.php:75-78 | enumerating one more item equals enumerating the enumeration so far and that item |
| Helpers.EnumSnocKept | src/globals/helpers.php:75-78 | a kept argument after something kept before follows the delimiter |
| Helpers.EnumSnocFirst | src/globals/helpers.php:75-78 | a kept argument after nothing kept stands alone, with no delimiter |
| Helpers.EnumSnocDropped | src/globals/helpers.php:75-78 | a null or '' argument at the end changes nothing |
| Helpers.EnumTexts | src/globals/helpers.php:75-78 | `enum` of two strings is the non-empty ones joined by the delimiter |
| Helpers.ClassList | src/globals/helpers.php:86-90 | '' exactly when the enumeration is falsy (so '' or "0"); otherwise a dot followed by the enumeration |
| Helpers.When | src/globals/helpers.php:64-67 | picks `$a` when the condition is set and not '', `$b` otherwise |
| Helpers.WhenIgnoresTruthiness | src/globals/helpers.php:66 | `false`, `0` and `"0"` still select `$a`; only null and '' select `$b` |
| Helpers.At | src/globals/helpers.php:28-31 | null for a null array; the stored value when set and not null; the default otherwise |
| Helpers.MapList | src/globals/helpers.php:50-53 | null exactly for a null array; otherwise the function applied to each item, in place |
| Helpers.ArrayOf | src/globals/helpers.php:41 | the arguments, unchanged, as one list |
| Selector.RunLen | src/Edge/Element.php:137 | `\S+` takes the longest prefix with no whitespace: all of it is non-space and the next character is a space |
| Selector.MatchAt | src/Edge/Element.php:137 | a match of ` ?#(\S+) ?` starts at `#` or ` #`; its capture is exactly the longest run without whitespace right after the `#`, and the match ends right after it, or one character later exactly when that character is a space (a tab or line feed is left in the text); no match means neither `#` nor ` #` is followed by a non-space |
| Selector.Strip | src/Edge/Element.php:137-140 | deleting every match never lengthens the text; with no match the text is unchanged; a match removes at least two characters (`StripMatch` states which text and id it gives) |
| Selector.StripWithoutHash | src/Edge/Element.php:137-140 | a text without `#` gives itself and no id |
| Selector.StripIdOccurs | src/Edge/Element.php:137-140 | the id found is a non-empty run of non-space characters that follows a `#` in the text |
| Selector.StripMatch | src/Edge/Element.php:137-140 | a match `#x ` or ` #x ` is deleted whole and the scan goes on after it; the id is the one found later in the text if there is one, else `x`: every match is deleted and the last capture is the id |
| Selector.StripLeadingClass | src/Edge/Element.php:137-140 | a class character before ` #x ` stays in the text and the match is deleted |
| Selector.StripAtMatch | src/Edge/Element.php:137-140 | wherever a match starts, it is deleted and the scan resumes after it; the id is the later one if any, else this capture |
| Selector.StripMatchUnspaced | src/Edge/Element.php:137-140 | `#x` or ` #x` that ends the text or is followed by non-space whitespace ends right after `x`; it is deleted and the later capture, if any, wins |
| Selector.StripKeep | src/Edge/Element.php:137-140 | where no match starts, the first character is kept and the scan moves one character on |
| Selector.NoMatchAt | src/Edge/Element.php:137 | no match starts at a character that is neither `#` nor a space |
| Selector.StripConsPlain | src/Edge/Element.php:137-140 | a character that is neither `#` nor a space starts no match and stays in the class text |
| Selector.StripPlainPrefix | src/Edge/Element.php:137-140 | a prefix without `#` or space is kept in order before what the rest of the text gives, with the rest's id |
| Selector.StripHashRun | src/Edge/Element.php:137-140 | a `#` followed by non-space characters up to the end is one match: the text becomes '' and the id the run |
| Selector.StripTwoIds | src/Edge/Element.php:137-140 | `a #x #y` gives class text `a` and id `y`, the last capture |
| Selector.ExtractSelector | src/Edge/Element.php:126-145 | a non-selector (empty list, not a string, no leading `.`/`#`) gives `('', '', '')` and the list unchanged; a selector is shifted off and split into class (leading dot dropped, matches deleted) and id |
| Selector.ClassOnlySelector | src/Edge/Element.php:132-141 | `.c` without `#` gives class `c`, id '' and the other arguments in order |
| Selector.SelectorDotted | src/Edge/Element.php:126-145 | `.a.b#x` gives class `a.b` and id `x` |
| Selector.SelectorIdOnly | src/Edge/Element.php:126-145 | `#x` gives no class and id `x` |
| Selector.SelectorGreedy | src/Edge/Element.php:137 | `#x.y` gives id `x.y`: the run after `#` is greedy |
| Selector.SelectorTwoIds | src/Edge/Element.php:126-145 | `.a #x #y` gives class `a` and id `y`: both ids are deleted and the last is kept |
| Selector.SelectorPlain | src/Edge/Element.php:134-135 | a string starting with neither `.` nor `#` stays a child |
| ElementOps.InitProps | src/Edge/FormField.php:10-11 | a composite starts with exactly its declared properties, all null |
| ElementOps.AppendBase | src/Edge/Element.php:42-47 | `_` puts the items after the existing children, in order; nothing else changes |
| ElementOps.HtmlAppend | src/Edge/HTML/Interfaces/HTMLElement.php:39-47 | fails exactly for a void element given at least one item, naming the tag; otherwise appends as `Element::_` |
| ElementOps.Append | src/Edge/Element.php:42-47 | dispatch of `_`: fails exactly on a void HTML element with items; otherwise appends and changes nothing else |
| ElementOps.SetId | src/Edge/Element.php:30-34 | the id becomes the value; nothing else changes |
| ElementOps.TruthyKeys | src/Edge/Element.php:109-113 | the keys of truthy entries, no more: every truthy key is there and every key there has a truthy entry (`TruthyKeysAppend` fixes their order) |
| ElementOps.TruthyKeysAppend | src/Edge/Element.php:109-113 | the keys follow map order: those of a joined map are the first part's then the second's |
| ElementOps.Indexed | src/Edge/Element.php:111 | a PHP list iterates with keys 0, 1, ... |
| ElementOps.ClassMapExample | src/Edge/Element.php:107-117 | `class(['a'=>true,'b'=>false,'c'=>1])` stores `a c` |
| ElementOps.SetClass | src/Edge/Element.php:107-117 | an array is stored as its truthy keys, in map order, joined by single spaces; any other value (a string, `false`, a number, an object) is stored unchanged; nothing else changes |
| ElementOps.AddClass | src/Edge/Element.php:82-85 | fails exactly when the class is an object, with the interpolation error; otherwise an unset or '' class gives the new class alone, adding '' leaves the class's text, else one space separates them; `false` counts as set and prints as ''; nothing else changes |
| ElementOps.AddClassTwice | src/Edge/Element.php:84 | for any class but `false`, two `addClass` calls equal one `enum` over all three parts, failures included |
| ElementOps.PairKept | src/Edge/Element.php:84 | `enum(' ', $class, $c)` keeps nothing exactly when the class is unset or '' and `$c` is ''; otherwise, for a class other than `false`, its text is not '' |
| ElementOps.AddClassAfterFalse | src/Edge/Element.php:82-85 | after `class(false)`, `addClass('x')` gives ` x` with a leading space, while adding '' first gives `x` |
| ElementOps.EnumKeepsFalse | src/globals/helpers.php:75-78 | `enum(' ', false, '', 'x')` is ` x`: `false` is kept and prints as '' |
| ElementOps.ElementSet | src/Edge/Element.php:56-67 | `class` goes to `_class($args[0])`; a declared property gets `true`, the single argument or the list, other properties unchanged; `children` gets the same value when it is a list (several arguments, or one list argument), and `NonListChildren` is reported otherwise; any other name throws, naming it and the class |
| ElementOps.ChildrenThroughCall | src/Edge/Element.php:61-62 | `->children($a, $b)` stores `[$a, $b]`, `->children([$a])` stores `[$a]`, and `->children()` (which stores `true`) is the unmodelled case |
| ElementOps.HtmlSet | src/Edge/HTML/Interfaces/HTMLElement.php:56-62 | `class` as for every element; any other name becomes an attribute with `$args[0]` or `true`, other attributes unchanged; a known name keeps its position, a new one goes last |
| ElementOps.Set | src/Edge/Element.php:56-67 | an HTML element never refuses a setter; the kind never changes; a failure is the unknown-attribute error, or for `children` the unmodelled non-list value; children change only through `children` on an element that is not an HTML one, and then to the list given |
| ElementOps.Construct | src/Edge/Element.php:11-19 | a leading selector sets class and id (id '' without `#`); without one the class stays '' and the id null; the rest are appended, so only a void element given content throws |
| ElementOps.ConstructTotal | src/Edge/Element.php:11-19 | a constructor that is not a void element's never throws |
| ElementOps.VoidConstruct | src/Edge/HTML/Interfaces/HTMLElement.php:30-47 | a void element accepts no arguments or a lone selector, nothing else |
| HtmlElement.Escape | src/Edge/HTML/Interfaces/HTMLElement.php:80 | an escaped value holds no `"`, `<` or `>`, so it cannot close the attribute or open a tag |
| HtmlElement.EscapePlain | src/Edge/HTML/Interfaces/HTMLElement.php:80 | text without `& < > "` passes unchanged (the single quote included) |
| HtmlElement.UnescapeEntity | src/Edge/HTML/Interfaces/HTMLElement.php:80 | each of the four entities decodes back to its character |
| HtmlElement.EscapeRoundTrip | src/Edge/HTML/Interfaces/HTMLElement.php:80 | decoding the four entities gives back the original value |
| HtmlElement.AttrText | src/Edge/HTML/Interfaces/HTMLElement.php:78-95 | a string is escaped and quoted, `true` is the bare name, an integer its digits, `false`/null nothing; any other type is an error naming type, attribute and tag |
| HtmlElement.AttrsText | src/Edge/HTML/Interfaces/HTMLElement.php:77-96 | a single attribute serialises as `AttrText` does (`AttrsTextAppend` and `AttrsTextFails` state the rest) |
| HtmlElement.AttrsTextFails | src/Edge/HTML/Interfaces/HTMLElement.php:77-96 | the serialisation fails exactly when some value has an unsupported type, and then with the error of the first such attribute |
| HtmlElement.AttrsTextAppend | src/Edge/HTML/Interfaces/HTMLElement.php:77-96 | the pieces follow map order: a joined map serialises as the first part's text followed by the second's, and fails when either part does |
| HtmlElement.AttrsPrefixFailure | src/Edge/HTML/Interfaces/HTMLElement.php:77-96 | once a prefix of the attributes fails, the whole list fails the same way |
| HtmlElement.SerializeAttributes | src/Edge/HTML/Interfaces/HTMLElement.php:77-96 | the loop accumulating attribute pieces computes `AttrsText` |
| HtmlElement.IdAttr | src/Edge/HTML/Interfaces/HTMLElement.php:72-73 | the id attribute is left out exactly when the id is empty in PHP (null, '' or "0") |
| HtmlElement.ClassAttr | src/Edge/HTML/Interfaces/HTMLElement.php:74-75 | an object class fails; otherwise the class attribute is left out exactly when the class is falsy in PHP (null, false, 0, '' or "0"), and is ` class="…"` with the class's text when it is truthy |
| HtmlElement.OpenTagAttrs | src/Edge/HTML/Interfaces/HTMLElement.php:71-98 | an object class fails first; otherwise it fails exactly when an attribute does, with that error; on success the text is id, then class, then the attributes in order |
| Catalog.Tag | src/globals/Edge/HTML/elements.php:1322-1339 | a tag factory builds that tag, void exactly for the fifteen void tags, and fails only for a void tag given content |
| Catalog.TagTable | src/globals/Edge/HTML/elements.php:1322-1339 | `col` is void, `colgroup` is not, `var_` builds `var` |
| Catalog.H | src/globals/Edge/HTML/elements.php:16-19 | `h` builds a non-void element with exactly that tag, the arguments after the selector as children, no attributes |
| Catalog.NonVoidFactory | src/globals/Edge/HTML/elements.php:1336-1339 | a non-void factory is `h` with its tag |
| Catalog.Row | src/globals/Edge/HTML/elements.php:1549-1552 | `row` is a div of class `row` whose children are all the arguments |
| Catalog.RowKeepsSelectorAsText | src/globals/Edge/HTML/elements.php:1551 | a selector passed to `row` is not parsed: it stays a text child |
| Catalog.Column | src/globals/Edge/HTML/elements.php:1554-1557 | `column` is `h('div', ...)` on its arguments |
| Catalog.ColumnAppliesSelector | src/globals/Edge/HTML/elements.php:1556 | a selector passed to `column` sets its class |
| Catalog.NewPanel | src/globals/Edge/HTML/elements.php:1544-1547 | `panel` builds a Panel with a null body and the non-selector arguments as children |
| Catalog.NewFormField | src/globals/Edge/HTML/elements.php:1559-1562 | `form_field` builds a FormField with null label and icon |
| Composites.PanelView | src/Edge/Panel.php:10-18 | a panel renders as a non-void div whose class and id are what the selector `.panel CLS` gives (matches deleted, last capture as id), without attributes or properties, whose only child is the body div |
| Composites.PanelBody | src/Edge/Panel.php:14-16 | the inner element is a div holding the body |
| Composites.PanelBodyIsSelectorDiv | src/Edge/Panel.php:14 | that div is exactly `div('.panel-body', $body)` |
| Composites.FieldType | src/Edge/FormField.php:20 | the control's `type` is read from its attributes: null for a child that is not an HTML element or has no `type`, else the stored value |
| Composites.IsCheckbox | src/Edge/FormField.php:21 | no contract of its own: `$type == 'checkbox'` under PHP 8 loose comparison holds for the string `checkbox` and for `true` |
| Composites.WrapperClass | src/Edge/FormField.php:29 | the wrapper selector is a dot followed by `form-group`, ` has-feedback` when an icon is set and not '', and a space and the own class as text when it is set and not '' (a `false` class leaves a trailing space); an object class fails |
| Composites.Feedback | src/Edge/FormField.php:32 | no icon gives ''; an object icon fails to interpolate; any other icon gives `span(".form-control-feedback $icon")` |
| Composites.LabelAndChildren | src/Edge/FormField.php:19-27 | the label and the children render leaves: a labelled checkbox fails exactly when its label text cannot be interpolated; any other field fails exactly when it is not an object or `addClass('form-control')` on it throws |
| Composites.CheckboxLabel | src/Edge/FormField.php:21-23 | a checkbox with a label leaves no children |
| Composites.ControlLabel | src/Edge/FormField.php:25-26 | any other control stays the only child, with `form-control` added |
| Composites.FormFieldAfter | src/Edge/FormField.php:15-27 | render changes only the children, and nothing when the arity check fails |
| Composites.FormFieldView | src/Edge/FormField.php:13-34 | anything but one child throws; then the label, the wrapper class and the feedback each fail in that order; otherwise a div whose class and id are what the wrapper selector gives (a `#` in the own class becomes the id), without attributes or properties, whose children are the label, the children render left and the feedback span; its state is `FormFieldAfter` |
| Composites.Wrapper | src/Edge/FormField.php:28-33 | the wrapper div takes its class and its id from the selector (matches deleted, the last capture as id), has no attributes or properties, and holds label, children and feedback in that order |
| Composites.FormFieldCheckbox | src/Edge/FormField.php:20-23 | a labelled checkbox is wrapped in a label followed by a space and the label text; the component loses its children |
| Composites.FormFieldControl | src/Edge/FormField.php:24-32 | otherwise the wrapper holds the label (only when set), the control with `form-control` added as the only child, and the feedback span |
| Composites.FormFieldHashClass | src/Edge/FormField.php:29 | `class('#z')` without an icon gives the wrapper div the id `z` and the class `form-group` |
| Composites.FormFieldCheckboxObjectLabel | src/Edge/FormField.php:21-22 | a labelled checkbox whose label is an object cannot build ` $label`: render throws and the component keeps its control |
| Composites.FormFieldFeedbackError | src/Edge/FormField.php:26-32 | when the icon cannot be interpolated, render fails but the control keeps `form-control` |
| Composites.FormFieldNotObject | src/Edge/FormField.php:19-26 | a control that is not an object fails when its class is added |
| Composites.FormFieldControlObjectClass | src/Edge/FormField.php:24-26 | a control whose class is an object makes `addClass` throw: render fails and the component is unchanged |
| Composites.FormFieldRenderTwice | src/Edge/FormField.php:26 | rendering twice adds `form-control` twice |
| Composites.ControlKeepsType | src/Edge/FormField.php:20-26 | adding `form-control` keeps the control's `type`, so a second render takes the same branch |
| Edge.Then | src/Edge/Edge.php:13-24 | the first failure wins; otherwise the texts join |
| Edge.RenderSeq | src/Edge/Edge.php:11-25 | no contract of its own: the pieces of the arguments, in order, joined with nothing between; `RenderConcat`, `RenderAllOrNothing`, `Splice`, `NullNeutral` and `RejectsScalar` state its properties |
| Edge.RenderAssoc | src/Edge/Edge.php:19-20 | no contract of its own: an associative array spread into `render`; `RenderAssocValues` states it |
| Edge.RenderAssocValues | src/Edge/Edge.php:19-20 | an associative array renders as its values in order; its keys play no part |
| Edge.RenderValue | src/Edge/Edge.php:21-22 | a boolean, integer or other non-element object is rejected with its type name |
| Edge.OwnRender | src/Edge/Edge.php:15-16 | no contract of its own: `render($e->render())`; `PlainOutput`, `HtmlOutput`, `PanelRender` and `FormFieldArityError` state it per class |
| Edge.CompositeView | src/Edge/Edge.php:15-16 | the tree a Panel or FormField `render()` returns is smaller than the composite, so the renderer's recursion ends |
| Edge.Markup | src/Edge/HTML/Interfaces/HTMLElement.php:99 | a void tag is `<tag attrs>` alone; otherwise start tag, content and `</tag>`, in that order, with nothing else |
| Edge.Render | src/Edge/Edge.php:11-25 | the loop of `Edge::render` computes `RenderSeq` |
| Edge.RenderConcat | src/Edge/Edge.php:14-24 | rendering a concatenation is rendering the parts one after the other |
| Edge.RenderAllOrNothing | src/Edge/Edge.php:14-24 | no partial output: a list renders exactly when every argument does, as the first argument's text followed by the rest's |
| Edge.ThenUnit | src/Edge/Edge.php:24 | '' joins as a unit on either side |
| Edge.ThenAssoc | src/Edge/Edge.php:24 | joining is associative, failures included |
| Edge.NullNeutral | src/Edge/Edge.php:21 | a null argument contributes nothing wherever it is |
| Edge.Splice | src/Edge/Edge.php:19-20 | an array argument renders as its items passed in its place |
| Edge.RenderStrings | src/Edge/Edge.php:17-18 | strings render as themselves, joined with nothing between |
| Edge.RejectsScalar | src/Edge/Edge.php:21-22 | after any prefix that renders, a boolean, integer, resource or non-element object stops rendering with its type name, whatever follows |
| Edge.HtmlOutput | src/Edge/HTML/Interfaces/HTMLElement.php:66-100 | an HTML element renders when its attributes and its content do, as the markup of both |
| Edge.AttributeErrorFirst | src/Edge/HTML/Interfaces/HTMLElement.php:77-97 | a bad attribute fails before the content is rendered |
| Edge.HtmlObjectClass | src/Edge/HTML/Interfaces/HTMLElement.php:74-75 | an HTML element whose class is an object throws when the class is interpolated, before anything else |
| Edge.VoidRendersContent | src/Edge/HTML/Interfaces/HTMLElement.php:97-99 | a void element still renders its content, so a bad child makes it fail |
| Edge.PlainOutput | src/Edge/Element.php:73-76 | a plain element renders as its children |
| Edge.FormFieldArityError | src/Edge/FormField.php:16-17 | a FormField without exactly one child fails to render |
| Edge.DivOutput | src/Edge/HTML/Interfaces/HTMLElement.php:71-99 | a classed div with no id and no attributes is `<div class="c">content</div>` |
| Edge.RenderSingle | src/Edge/Edge.php:14-24 | one argument renders as itself |
| Edge.ClassDivNode | src/Edge/Element.php:11-19 | `div('.c', x)` without `#` is the div of class `c`, id '' and the single child `x` |
| Edge.ClassDivOutput | src/Edge/HTML/Interfaces/HTMLElement.php:66-100 | `div('.c', x)` renders as `x` wrapped in `<div class="c">` |
| Edge.PanelBodyOutput | src/Edge/Panel.php:14-16 | the body div renders as the body in `<div class="panel-body">` |
| Edge.PanelOutput | src/Edge/Panel.php:10-18 | a panel renders as `<div class="panel CLS"><div class="panel-body">BODY</div></div>` |
| Edge.PanelRender | src/Edge/Panel.php:10-18 | a panel renders as the tree its `render()` returns, or fails as building that tree does |
| Edge.PanelHashClass | src/Edge/Panel.php:13 | `class('#y')` on a panel makes the outer div's id `y` and its class `panel`: the selector's ` #y` match is deleted with its leading space |
| Edge.PanelObjectClass | src/Edge/Panel.php:13 | a panel whose class is an object cannot interpolate it into its selector: rendering throws |
| Edge.PanelWithoutBody | src/Edge/Panel.php:14-16 | a panel without a body still renders an empty body div |
| Edge.PanelIgnoresChildren | src/Edge/Panel.php:10-18 | children appended to a panel never appear in its output |
| Objects.IconItems | src/Edge/Mixins/IconMixin.php:24 | `run` pushes two items, the first the spacer `' &nbsp;'` |
| Objects.IconNode | src/Edge/Mixins/IconMixin.php:24 | the icon is an empty non-void `i` element |
| Objects.IconNodeIsH | src/Edge/Mixins/IconMixin.php:24 | the icon is exactly `i(".$class")` |
| Objects.IconsItemsOrder | src/Edge/Element.php:95-96 | the items of the i-th mixin sit at positions 2i and 2i+1 |
| Objects.IconsItemsSnoc | src/Edge/Element.php:95-96 | one more mixin appends its items after the earlier ones |
| Objects.PushedAllItems | src/Edge/Element.php:95-96 | what the mixin objects push is what their classes describe |
| Objects.WithIcons | src/Edge/Element.php:92-98 | `with` appends the icon items after the children and changes nothing else |
| Objects.TruthyKeysOf | src/Edge/Element.php:110-112 | the loop of `_class` collects exactly `TruthyKeys` |
| Objects.Element.Empty | src/Edge/Element.php:7-9 | a new object has no id, class '', no children and null declared properties |
| Objects.Element.New | src/Edge/Element.php:11-19 | construction succeeds or fails exactly as `Construct`, and a new object holds its state |
| Objects.Element.Id | src/Edge/Element.php:30-34 | `id` leaves the state `SetId` describes |
| Objects.Element.Append | src/Edge/HTML/Interfaces/HTMLElement.php:39-47 | `_` fails as `Append` does, leaving the object unchanged, or leaves its state |
| Objects.Element.SetClass | src/Edge/Element.php:107-117 | `_class` leaves the state `SetClass` describes |
| Objects.Element.AddClass | src/Edge/Element.php:82-85 | `addClass` leaves the state `AddClass` describes |
| Objects.Element.Set | src/Edge/Element.php:56-67 | a dynamic setter fails as `Set` does, leaving the object unchanged, or leaves its state |
| Objects.Element.Render | src/Edge/Edge.php:15-16 | `render($e->render())` gives `OwnRender` of the state before; only a FormField changes, to `FormFieldAfter` |
| Objects.Element.WithOne | src/Edge/Element.php:96 | `applyTo` then `run` binds the mixin to this element and appends its items |
| Objects.Element.With | src/Edge/Element.php:92-98 | `with` leaves `WithIcons` of the earlier state, and every mixin targets this element |
| Objects.IconMixin.constructor | src/Edge/Mixins/IconMixin.php:17-20 | the class is kept as given; no target yet |
| Objects.IconMixin.ApplyTo | src/Edge/Mixin.php:22-27 | the target is replaced |
| Objects.IconMixin.Target | src/Edge/Mixin.php:40-44 | the tunnel reads the target's current children, class and id, the `attrs`, `tag` and `isVoid` of an HTML target, and the declared properties of a composite |
| Objects.IconMixin.Run | src/Edge/Mixins/IconMixin.php:22-25 | the spacer and icon go after the target's children, bypassing the void check; with no target, the call fails |
| Objects.IconOnVoidInvisible | src/Edge/Mixins/IconMixin.php:24 | an icon on a void element changes its children but not its output |

## Left out

- Aliasing: children hold elements by value, a snapshot taken at append time. Changing an element object after appending it, or sharing one element between two parents, is not modelled.
- Objects.Element.Render: a FormField nested among the children of the rendered element also changes itself when PHP renders it. The value-level renderer renders a copy, so that nested change is not reflected; only the rendered object's own change is.
- Floating-point attribute values (`double`) are not modelled. Only strings, booleans, integers and null are supported values.
- HtmlElement.Escape: models `htmlspecialchars` with `ENT_COMPAT | ENT_HTML5` on valid text only. Invalid UTF-8, which makes PHP return '', is not modelled.
- A float given to `class()` is not modelled, as floats are left out everywhere.
- `token()` is not part of this model. It needs the session, an external service.
- Reflection: `property_exists` is modelled by each kind's declared property list (`ElementOps.Declared`), with `children` handled beside it (`id` and `class` never reach the property branch: `id` is a real method and `class` is taken first).
- ElementSet: `->children(...)` on a Plain, Panel or FormField element with no argument, or with one argument that is not a list, makes PHP store `true`, that scalar, object or string-keyed array in `$children`; the model keeps children as a list of values, so it reports `NonListChildren` there instead of storing the value (what PHP does with such a value later, e.g. spreading it in `render`, is not modelled either). The list-valued calls are modelled.
- PHP 8.1 spreading of string-keyed arrays into `render(...$e)` is modelled as rendering the values in order (`RenderAssoc`). Named-argument errors are not modelled.
- `$type == 'checkbox'` follows PHP 8 loose comparison: only the string `checkbox` and `true` compare equal. PHP 7's numeric-string rules are not modelled.
- Objects.IconMixin.Target: the tunnel is read-only here. Writing through the returned reference is not modelled.
- The `I\HTML…Element` subclasses behave as `HTMLElement` and are not separate kinds. `h`'s namespace resolution is not modelled.
- The abstract `Mixin` base is folded into `IconMixin`, its one concrete subclass.
- Objects.IconMixin.Run: without a target, PHP fails when it accesses a property of null. Here that failure is the error value `NotAnObject("NULL")`.
- Objects.IconMixin: the icon element is built once from the class, which never changes, rather than on every `run`. The two are equal as values.
- Helpers.ClassList: follows the code, so an enumeration of "0" gives '' because "0" is falsy in PHP.
- The catalog has one factory per tag. The model has one `Tag` function keyed by tag name and the void table.
