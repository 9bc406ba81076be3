/** Decoded JSON documents and the small result types shared by the models. */
module Json {

  datatype Option<+T> = None | Some(value: T)

  datatype Result<+T, +E> = Ok(value: T) | Err(error: E)

  /** A document as the Go decoder returns it with UseNumber: a number keeps its
      text and an object is a finite map from keys to documents. */
  datatype Json =
    | Null
    | Bool(flag: bool)
    | Number(digits: string)
    | Str(text: string)
    | Arr(items: seq<Json>)
    | Obj(fields: map<string, Json>)

  /** The object's field, or Null when the key is missing: Go's index on a map. */
  function Field(v: Json, key: string): (r: Json)
  {
    if v.Obj? && key in v.fields then v.fields[key] else Null
  }

  predicate HasType(v: Json, name: string) {
    Field(v, "type") == Str(name)
  }

  /** w is v or a document somewhere inside v. */
  ghost predicate Occurs(w: Json, v: Json)
    decreases v
  {
    || w == v
    || (v.Arr? && exists i :: 0 <= i < |v.items| && Occurs(w, v.items[i]))
    || (v.Obj? && exists k :: k in v.fields && Occurs(w, v.fields[k]))
  }

  /** A text column: some encoding of one document, or text no decoder accepts. */
  datatype Text = Encoded(document: Json) | Malformed(raw: string)
}
