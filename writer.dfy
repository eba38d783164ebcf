/** The writer: a document tree back to text. */
module Writer {
  import opened JsonValues

  /** `JsonWriter::write`: the `Display` rendering of `v`, unchanged. An
      object is written between braces, an array between brackets and a
      string between double quotes, its characters copied without escaping. */
  function Write(v: JsonValue, order: KeyOrder): (text: string)
    ensures v.Object? ==> |text| >= 2 && text[0] == '{' && text[|text| - 1] == '}'
    ensures v.Array? ==> |text| >= 2 && text[0] == '[' && text[|text| - 1] == ']'
    ensures v.String? ==> |text| == |v.text| + 2 && text[0] == '"' && text[|text| - 1] == '"'
    ensures v.String? ==> text[1..|text| - 1] == v.text
  {
    Render(v, order)
  }
}
