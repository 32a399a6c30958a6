/** Parsed JSON documents. */
module JsonValues {

  datatype Json =
    | Null
    | Bool(b: bool)
    | Num(n: int)
    | Str(s: string)
    | Arr(items: seq<Json>)
    | Obj(fields: map<string, Json>)
  {
    predicate Has(key: string) {
      Obj? && key in fields
    }

    predicate HasObject(key: string) {
      Has(key) && fields[key].Obj?
    }

    predicate HasArray(key: string) {
      Has(key) && fields[key].Arr?
    }

    function With(key: string, value: Json): Json
      requires Obj?
    {
      Obj(fields[key := value])
    }
  }
}
