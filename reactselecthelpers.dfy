/** frontend/src/utils/reactSelectHelpers.js: between react-select's option shape and the stored shape. */
module ReactSelectHelpers {
  /** A react-select option `{ value, label }` (`label` is a Dafny keyword, so the field is `text`). */
  datatype SelectOption<T> = SelectOption(value: T, text: T)

  /** What the select widget holds: one option, or an array of them (`isMulti`). */
  datatype Options<T> = OneOption(option: SelectOption<T>) | ManyOptions(options: seq<SelectOption<T>>)

  /** What is saved: one value, or an array of them. */
  datatype Saved<T> = OneValue(value: T) | ManyValues(values: seq<T>)

  /** `optionsToSaveFormat`: each option's `value`, element-wise for an array. */
  function OptionsToSaveFormat<T>(val: Options<T>): (r: Saved<T>)
    ensures r.ManyValues? <==> val.ManyOptions?
    ensures val.OneOption? ==> r.value == val.option.value
    ensures val.ManyOptions? ==> |r.values| == |val.options|
    ensures val.ManyOptions? ==> forall i :: 0 <= i < |r.values| ==> r.values[i] == val.options[i].value
  {
    match val
    case OneOption(o) => OneValue(o.value)
    case ManyOptions(os) => ManyValues(seq(|os|, i requires 0 <= i < |os| => os[i].value))
  }

  /** `saveFormatToOptions`: an option whose value and label are both the saved value. */
  function SaveFormatToOptions<T>(val: Saved<T>): (r: Options<T>)
    ensures r.ManyOptions? <==> val.ManyValues?
    ensures val.OneValue? ==> r.option.value == val.value && r.option.text == val.value
    ensures val.ManyValues? ==> |r.options| == |val.values|
    ensures val.ManyValues? ==> forall i :: 0 <= i < |r.options| ==>
      r.options[i].value == val.values[i] && r.options[i].text == val.values[i]
  {
    match val
    case OneValue(v) => OneOption(SelectOption(v, v))
    case ManyValues(vs) => ManyOptions(seq(|vs|, i requires 0 <= i < |vs| => SelectOption(vs[i], vs[i])))
  }

  /** Converting a saved value to options and back gives it back. */
  lemma SaveRoundTrip<T>(val: Saved<T>)
    ensures OptionsToSaveFormat(SaveFormatToOptions(val)) == val
  {
    if val.ManyValues? {
      assert OptionsToSaveFormat(SaveFormatToOptions(val)).values == val.values;
    }
  }

  /** Options whose labels equal their values survive the opposite round trip too. */
  lemma OptionsRoundTrip<T>(val: Options<T>)
    requires val.OneOption? ==> val.option.text == val.option.value
    requires val.ManyOptions? ==> forall i :: 0 <= i < |val.options| ==> val.options[i].text == val.options[i].value
    ensures SaveFormatToOptions(OptionsToSaveFormat(val)) == val
  {
    if val.ManyOptions? {
      assert SaveFormatToOptions(OptionsToSaveFormat(val)).options == val.options;
    }
  }
}
