/**
 * The form field for one server-described setting: which kind of control it renders, the props
 * of its input, which checkboxes of a multi-choice setting are ticked, and the list of values
 * of a free-form list setting.
 */
module ProtocolFormField {
  import opened Options
  import opened Seqs
  import opened FieldValues

  /** A setting as the server describes it. The choices of a multi-choice setting are settings
      themselves; `options` is missing for other settings. */
  datatype Setting = Setting(
    key: string,
    caption: string,
    settingType: Option<string>,
    options: Option<seq<Setting>>,
    default: FieldValue,
    required: bool,
    description: Option<string>)

  /** A failed request's report, as the field is handed it to show. */
  datatype FetchError = FetchError(status: int, response: string, url: string)

  /** The field's props: the setting, whether it is disabled, its current value, the default the
      checkboxes fall back on, and the error of the last save, if any. */
  datatype FieldProps = FieldProps(
    setting: Setting,
    disabled: bool,
    value: FieldValue,
    default: FieldValue,
    error: Option<FetchError>)

  /** The kinds of control `render` chooses between. */
  datatype Control = SelectControl | CheckboxList | ItemList | ColorPicker | PlainInput

  /** A prop value handed to the input. */
  datatype Prop = PStr(s: string) | PBool(b: bool) | PNum(n: int) | PValue(v: FieldValue) | PError(e: FetchError) | PUndefined | PNull

  type Props = map<string, Prop>

  function TypeIs(setting: Setting, t: string): bool {
    setting.settingType == Some(t)
  }

  /** `render`: the first matching rule picks the control. A `list` setting with an `options`
      array, even an empty one, is a checkbox list. */
  function ControlFor(setting: Setting): (c: Control)
    ensures c == SelectControl <==> TypeIs(setting, "select")
    ensures c == CheckboxList <==> TypeIs(setting, "list") && setting.options.Some?
    ensures c == ItemList <==> TypeIs(setting, "list") && setting.options.None?
    ensures c == ColorPicker <==> TypeIs(setting, "color-picker")
    ensures c == PlainInput <==> !(setting.settingType in {Some("select"), Some("list"), Some("color-picker")})
  {
    if TypeIs(setting, "select") then SelectControl
    else if TypeIs(setting, "list") && setting.options.Some? then CheckboxList
    else if TypeIs(setting, "list") then ItemList
    else if TypeIs(setting, "color-picker") then ColorPicker
    else PlainInput
  }

  /** The element the input renders: the setting's type for text, textarea and select, else `input`. */
  function ElementType(setting: Setting): (t: string)
    ensures t in {"text", "textarea", "select", "input"}
    ensures t != "input" ==> setting.settingType == Some(t)
    ensures setting.settingType.Some? && setting.settingType.value in {"text", "textarea", "select"} ==> t == setting.settingType.value
  {
    if setting.settingType.Some? && setting.settingType.value in ["text", "textarea", "select"] then setting.settingType.value
    else "input"
  }

  /** `props.value || setting.default`. */
  function ShownValue(props: FieldProps): (v: FieldValue)
    ensures Truthy(props.value) ==> v == props.value
    ensures !Truthy(props.value) ==> v == props.setting.default
  {
    if Truthy(props.value) then props.value else props.setting.default
  }

  /** The props every input gets. */
  function BasicProps(props: FieldProps): Props {
    var s := props.setting;
    map[
      "key" := PStr(s.key),
      "elementType" := PStr(ElementType(s)),
      "type" := PStr("text"),
      "disabled" := PBool(props.disabled),
      "name" := PStr(s.key),
      "label" := PStr(s.caption),
      "required" := PBool(s.required),
      "description" := if s.description.Some? then PStr(s.description.value) else PUndefined,
      "value" := PValue(ShownValue(props)),
      "error" := if props.error.Some? then PError(props.error.value) else PUndefined,
      "ref" := PStr("element")]
  }

  /** The props particular to image and number settings; none for the others. */
  function ExtraProps(setting: Setting): Option<Props> {
    if TypeIs(setting, "image") then Some(map["accept" := PStr("image/*"), "type" := PStr("file"), "value" := PUndefined])
    else if TypeIs(setting, "number") then Some(map["validation" := PStr("number"), "step" := PNum(1)])
    else None
  }

  /** `createEditableInput(setting, customProps)`: the basic props, overridden by the type's extra
      props, overridden in turn by the custom props (object spread is a right-biased union). */
  function InputProps(props: FieldProps, custom: Option<Props>): (r: Props)
    ensures forall k :: k in r <==> k in BasicProps(props) || (ExtraProps(props.setting).Some? && k in ExtraProps(props.setting).value) || (custom.Some? && k in custom.value)
    ensures custom.Some? ==> forall k :: k in custom.value ==> r[k] == custom.value[k]
    ensures custom.None? && TypeIs(props.setting, "image") ==> r["value"] == PUndefined && r["type"] == PStr("file")
    ensures custom.None? && !TypeIs(props.setting, "image") ==> r["value"] == PValue(ShownValue(props))
    ensures (custom.None? || "elementType" !in custom.value) ==> r["elementType"] == PStr(ElementType(props.setting))
    ensures (custom.None? || "error" !in custom.value) && props.error.Some? ==> r["error"] == PError(props.error.value)
    ensures (custom.None? || "error" !in custom.value) && props.error.None? ==> r["error"] == PUndefined
  {
    var base := BasicProps(props);
    var withExtra := if ExtraProps(props.setting).Some? then base + ExtraProps(props.setting).value else base;
    if custom.Some? then withExtra + custom.value else withExtra
  }

  /** `isDefault(option)`: with a truthy default, whether it contains the option or its key. A
      string default is searched for the text: the option object itself reads as
      `"[object Object]"`. An array default is searched for the key; it never holds the option
      object itself. With a falsy default the answer is `undefined`, which is falsy. */
  function IsDefault(default: FieldValue, option: Setting): (b: bool)
    ensures !Truthy(default) ==> !b
    ensures default.Arr? ==> (b <==> Text(option.key) in default.items)
    ensures default.Str? && Truthy(default) ==>
      (b <==> Contains(default.s, "[object Object]") || Contains(default.s, option.key))
  {
    match default
    case Absent => false
    case Str(s) => s != "" && (Contains(s, "[object Object]") || Contains(s, option.key))
    case Arr(items) => exists i | 0 <= i < |items| :: items[i] == Text(option.key)
  }

  /** `s.indexOf(sub) >= 0` on strings. */
  predicate Contains(s: string, sub: string) {
    exists i | 0 <= i <= |s| :: OccursAt(s, sub, i)
  }

  predicate OccursAt(s: string, sub: string, i: int) {
    0 <= i && i + |sub| <= |s| && s[i..i + |sub|] == sub
  }

  predicate AllStrings(items: seq<Item>) {
    forall i | 0 <= i < |items| :: items[i].Text?
  }

  /** `shouldBeChecked(option)`: the current value names the option's key (a string equal to it, or
      an array of strings holding it); with no value, the default decides. */
  function ShouldBeChecked(props: FieldProps, option: Setting): (b: bool)
    ensures props.value == Str(option.key) && option.key != "" ==> b
    ensures props.value.Arr? && AllStrings(props.value.items) ==> (b <==> Text(option.key) in props.value.items)
    ensures props.value.Arr? && !AllStrings(props.value.items) ==> !b
    ensures props.value.Str? && props.value.s != "" ==> (b <==> props.value.s == option.key)
    ensures !Truthy(props.value) ==> (b <==> IsDefault(props.default, option))
  {
    var v := props.value;
    var isValue := Truthy(v)
      && (v.Str? || (v.Arr? && AllStrings(v.items)))
      && ((v.Str? && v.s == option.key) || (v.Arr? && Text(option.key) in v.items));
    var isDefault := !Truthy(v) && IsDefault(props.default, option);
    isValue || isDefault
  }

  /** The items of a free-form list setting. The state starts as `props.value || []`, so a
      non-empty string value lands there as a string, not an array. */
  function InitListItems(value: FieldValue): (items: FieldValue)
    ensures value.Arr? ==> items == value
    ensures !Truthy(value) ==> items == Arr([])
    ensures items.Arr? || (items.Str? && items.s != "")
  {
    if Truthy(value) then value else Arr([])
  }

  /** `removeListItem(item)`: on an array, drops every item equal to it. A string has no `filter`,
      so the call throws (`None`). */
  function RemoveListItem(listItems: FieldValue, item: Item): (r: Option<FieldValue>)
    ensures listItems.Arr? ==> r == Some(Arr(RemoveItem(listItems.items, item)))
    ensures !listItems.Arr? ==> r.None?
  {
    if listItems.Arr? then Some(Arr(RemoveItem(listItems.items, item))) else None
  }

  /** `addListItem()`: `concat` of the typed-in string. On an array it appends one item; on a
      string it is string concatenation. The typed-in value is a parameter. */
  function AddListItem(listItems: FieldValue, typed: string): (r: FieldValue)
    ensures listItems.Arr? ==> r == Arr(listItems.items + [Text(typed)])
    ensures listItems.Str? ==> r == Str(listItems.s + typed)
    ensures listItems.Absent? ==> r == Absent
  {
    match listItems
    case Arr(items) => Arr(items + [Text(typed)])
    case Str(s) => Str(s + typed)
    // Cannot arise: `InitListItems` never leaves the items missing.
    case Absent => Absent
  }

  /** `clear()`: the list becomes empty. */
  function Clear(listItems: FieldValue): (r: FieldValue)
    ensures r == Arr([])
  {
    Arr([])
  }

  /** `getValue()`: a free-form list setting answers with its items, any other setting with what
      its input holds (a parameter here). */
  function GetValue(props: FieldProps, listItems: FieldValue, inputValue: FieldValue): (r: FieldValue)
    ensures ControlFor(props.setting) == ItemList ==> r == listItems
    ensures ControlFor(props.setting) != ItemList ==> r == inputValue
  {
    if TypeIs(props.setting, "list") && props.setting.options.None? then listItems else inputValue
  }

  // ----- Lemmas -----

  /** A truthy value overrides the default for every checkbox: the default only matters when the
      setting has no value. */
  lemma ValueOverridesDefault(props: FieldProps, option: Setting, default: FieldValue)
    requires Truthy(props.value)
    ensures ShouldBeChecked(props, option) == ShouldBeChecked(props.(default := default), option)
  {
  }

  /** An array default ticks exactly the options whose keys it lists. */
  lemma ArrayDefaultTicksListedKeys(props: FieldProps, option: Setting)
    requires !Truthy(props.value) && props.default.Arr?
    ensures ShouldBeChecked(props, option) <==> Text(option.key) in props.default.items
  {
  }

  /** A string default containing `"[object Object]"` ticks every option, whatever its key. */
  lemma ObjectTextDefaultTicksAll(props: FieldProps, option: Setting)
    requires !Truthy(props.value)
    requires props.default == Str("[object Object]")
    ensures ShouldBeChecked(props, option)
  {
    assert OccursAt(props.default.s, "[object Object]", 0);
  }

  /** A string default equal to a non-empty option key ticks that option. */
  lemma KeyDefaultTicks(props: FieldProps, option: Setting)
    requires !Truthy(props.value)
    requires props.default == Str(option.key) && option.key != ""
    ensures ShouldBeChecked(props, option)
  {
    assert OccursAt(props.default.s, option.key, 0);
  }

  /** Removing a just-added item restores the list of a list setting, when the item was new. */
  lemma RemoveUndoesAdd(items: seq<Item>, typed: string)
    requires Text(typed) !in items
    ensures RemoveListItem(AddListItem(Arr(items), typed), Text(typed)) == Some(Arr(items))
  {
    forall i | 0 <= i < |items|
      ensures !SameItem(items[i], Text(typed))
    {
      assert items[i] != Text(typed);
    }
    RemoveUndoesAppend(items, Text(typed));
  }

  /** An image input never shows the value as its own, and a number input steps by one. */
  lemma ImageAndNumberProps(props: FieldProps)
    ensures TypeIs(props.setting, "image") ==> InputProps(props, None)["accept"] == PStr("image/*")
    ensures TypeIs(props.setting, "number") ==> InputProps(props, None)["step"] == PNum(1)
    ensures TypeIs(props.setting, "number") ==> InputProps(props, None)["type"] == PStr("text")
  {
  }

  /** A basic prop that neither the type's extra props nor the custom props set is passed on. */
  lemma BasicPropKept(props: FieldProps, custom: Option<Props>, k: string)
    requires k in BasicProps(props)
    requires ExtraProps(props.setting).None? || k !in ExtraProps(props.setting).value
    requires custom.None? || k !in custom.value
    ensures k in InputProps(props, custom) && InputProps(props, custom)[k] == BasicProps(props)[k]
  {
    var base := BasicProps(props);
    var withExtra := if ExtraProps(props.setting).Some? then base + ExtraProps(props.setting).value else base;
    assert k in withExtra && withExtra[k] == base[k];
  }

  /** The checkbox props of a multi-choice setting: the custom type, name and checked state win
      over the basic ones. */
  lemma CheckboxPropsWin(props: FieldProps, option: Setting)
    ensures var custom := map["type" := PStr("checkbox"), "required" := PBool(props.setting.required),
                             "name" := PStr(props.setting.key + "_" + option.key),
                             "checked" := PBool(ShouldBeChecked(props, option))];
      var r := InputProps(props.(setting := option), Some(custom));
      r["type"] == PStr("checkbox") && r["name"] == PStr(props.setting.key + "_" + option.key)
      && r["key"] == PStr(option.key)
  {
    var custom := map["type" := PStr("checkbox"), "required" := PBool(props.setting.required),
                      "name" := PStr(props.setting.key + "_" + option.key),
                      "checked" := PBool(ShouldBeChecked(props, option))];
    var p := props.(setting := option);
    assert "key" !in custom;
    assert ExtraProps(option).None? || "key" !in ExtraProps(option).value;
    BasicPropKept(p, Some(custom), "key");
  }
}
