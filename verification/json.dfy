/** JSON values as `JSON.parse` produces them, and the two type tests of
    `src/utils/object.util.ts`. Numbers are kept as their literal text: the
    tool never computes with them. */
module Json {

  datatype Json =
    | JNull
    | JBool(b: bool)
    | JNum(literal: string)
    | JStr(s: string)
    | JArr(items: seq<Json>)
    | JObj(members: seq<Member>)

  datatype Member = Member(key: string, value: Json)

  /** `Array.isArray(v)`. */
  predicate IsArray(v: Json) {
    v.JArr?
  }

  /** `typeof v === 'object'`, which JavaScript also answers with true for
      arrays and for `null`. */
  predicate IsObject(v: Json) {
    v.JArr? || v.JObj? || v.JNull?
  }

  /** Arrays count as objects, so the placeholder rewrite descends into them;
      strings, numbers and booleans are the only non-objects. */
  lemma ArraysAreObjects(v: Json)
    ensures IsArray(v) ==> IsObject(v)
    ensures !IsObject(v) <==> (v.JStr? || v.JNum? || v.JBool?)
  {
  }

  /** The fixtures of the object utility tests: an array of strings, a string,
      an object holding an array of objects, and that array. */
  lemma ObjectUtilFixtures()
    ensures var arr := JArr([JStr("a"), JStr("b")]);
            IsObject(arr) && IsArray(arr)
    ensures !IsObject(JStr("string")) && !IsArray(JStr("string"))
    ensures var withArray := JArr([JObj([Member("key", JStr("value"))]), JObj([Member("key2", JStr("value2"))])]);
            var obj := JObj([Member("withArray", withArray), Member("key", JStr("value"))]);
            IsObject(obj) && !IsArray(obj) && IsObject(withArray) && IsArray(withArray)
  {
  }
}
