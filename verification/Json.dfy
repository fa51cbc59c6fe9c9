/** JSON values: as text holds them, members in order, and as they mean, members as a map. */
module Json {
  import opened Records

  /** A JSON number by its canonical text. */
  type NumberText = s: string | s != "" && forall c :: c in s ==> NumberChar(c) witness "0"

  predicate NumberChar(c: char) {
    '0' <= c <= '9' || c == '-' || c == '+' || c == '.' || c == 'e' || c == 'E'
  }

  datatype Json =
    | Null | Bool(flag: bool) | Num(number: NumberText) | Str(text: string)
    | Arr(items: seq<Json>) | Obj(members: seq<(string, Json)>)

  datatype Value =
    | VNull | VBool(flag: bool) | VNum(number: NumberText) | VStr(text: string)
    | VArr(items: seq<Value>) | VObj(members: map<string, Value>)

  /** Object keys are distinct all the way down, as in any JavaScript object. */
  ghost predicate WellFormed(j: Json) {
    match j
    case Arr(items) => forall i :: 0 <= i < |items| ==> WellFormed(items[i])
    case Obj(members) => Distinct(members) && forall i :: 0 <= i < |members| ==> WellFormed(members[i].1)
    case _ => true
  }

  function Meanings(items: seq<Json>): (r: seq<Value>)
    ensures |r| == |items|
    decreases items
  {
    seq(|items|, i requires 0 <= i < |items| => Meaning(items[i]))
  }

  function MeaningOfMembers(members: seq<(string, Json)>): (r: map<string, Value>)
    ensures forall k :: k in r <==> exists i :: 0 <= i < |members| && members[i].0 == k
    decreases members
  {
    if members == [] then map[]
    else
      var rest := MeaningOfMembers(members[1..]);
      assert forall i :: 1 <= i < |members| ==> members[i] == members[1..][i - 1];
      assert forall i :: 0 <= i < |members| - 1 ==> members[1..][i] == members[i + 1];
      assert members[0].1 < members[0];
      rest[members[0].0 := Meaning(members[0].1)]
  }

  /** The value, with the order of object members forgotten. */
  function Meaning(j: Json): Value
    decreases j
  {
    match j
    case Null => VNull
    case Bool(flag) => VBool(flag)
    case Num(number) => VNum(number)
    case Str(text) => VStr(text)
    case Arr(items) => VArr(Meanings(items))
    case Obj(members) => VObj(MeaningOfMembers(members))
  }
}
