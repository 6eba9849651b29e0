/**
 `analyse_data_structure`: structural pattern matching over a value of
 unknown shape. The `case` clauses of conditionals.py are tried in order and
 the first whose pattern and guard both hold wins. The answer is modelled as a
 `Shape` carrying what the Python f-string interpolates; `Describe` turns it
 into the Python message.
 */
module Structural {
  import opened Text

  /** The values the matcher distinguishes; anything else is `Other`, known only by its type name. */
  datatype Value =
    | Int(i: int)
    | Str(s: string)
    | List(items: seq<Value>)
    | Dict(entries: map<string, Value>)
    | Other(typeName: string)

  /** The outcome of each `case` clause, in the order conditionals.py lists them. */
  datatype Shape =
    | PositiveInteger(n: int)
    | NegativeInteger(n: int)
    | Zero
    | EmptyString
    | StringOfLength(length: nat)
    | EmptyList
    | OneItemList(item: Value)
    | LongList(first: Value)
    | TwoItemList(first: Value, second: Value)
    | EmptyDictionary
    | Person(name: Value, age: Value)
    | UnknownType(typeName: string)

  /** The position of the `case` clause that produces a shape, counting from 0. */
  function ClauseOf(shape: Shape): nat {
    match shape
    case PositiveInteger(_) => 0
    case NegativeInteger(_) => 1
    case Zero => 2
    case EmptyString => 3
    case StringOfLength(_) => 4
    case EmptyList => 5
    case OneItemList(_) => 6
    case LongList(_) => 7
    case TwoItemList(_, _) => 8
    case EmptyDictionary => 9
    case Person(_, _) => 10
    case UnknownType(_) => 11
  }

  /**
   Whether clause `k`'s pattern and guard accept `v`, read clause by clause
   off the Python code. The sequence pattern `[first, *rest]` needs at least one
   element; the mapping pattern needs both keys and allows others.
   */
  predicate ClauseAccepts(k: nat, v: Value) {
    if k == 0 then v.Int? && v.i > 0
    else if k == 1 then v.Int? && v.i < 0
    else if k == 2 then v.Int? && v.i == 0
    else if k == 3 then v.Str? && |v.s| == 0
    else if k == 4 then v.Str?
    else if k == 5 then v.List? && |v.items| == 0
    else if k == 6 then v.List? && |v.items| == 1
    else if k == 7 then v.List? && |v.items| >= 1 && |v.items[1..]| > 5
    else if k == 8 then v.List? && |v.items| == 2
    else if k == 9 then v.Dict? && |v.entries| == 0
    else if k == 10 then v.Dict? && "name" in v.entries && "age" in v.entries
    else k == 11
  }

  /** Python's type name for a value, as `type(data)` would report it. */
  function TypeName(v: Value): string {
    match v
    case Int(_) => "int"
    case Str(_) => "str"
    case List(_) => "list"
    case Dict(_) => "dict"
    case Other(t) => t
  }

  /**
   The first clause that accepts `v` produces the answer, with the payload the
   clause binds.
   */
  function AnalyseDataStructure(v: Value): (r: Shape)
    ensures ClauseAccepts(ClauseOf(r), v)
    ensures forall k :: 0 <= k < ClauseOf(r) ==> !ClauseAccepts(k, v)
    ensures r.PositiveInteger? || r.NegativeInteger? ==> r.n == v.i
    ensures r.StringOfLength? ==> r.length == |v.s|
    ensures r.OneItemList? || r.LongList? ==> (if r.OneItemList? then r.item else r.first) == v.items[0]
    ensures r.TwoItemList? ==> r.first == v.items[0] && r.second == v.items[1]
    ensures r.Person? ==> r.name == v.entries["name"] && r.age == v.entries["age"]
    ensures r.UnknownType? ==> r.typeName == TypeName(v)
  {
    match v
    case Int(i) =>
      if i > 0 then PositiveInteger(i)
      else if i < 0 then NegativeInteger(i)
      else Zero
    case Str(s) =>
      if |s| == 0 then EmptyString else StringOfLength(|s|)
    case List(items) =>
      if |items| == 0 then EmptyList
      else if |items| == 1 then OneItemList(items[0])
      else if |items[1..]| > 5 then LongList(items[0])
      else if |items| == 2 then TwoItemList(items[0], items[1])
      else UnknownType("list")
    case Dict(entries) =>
      if |entries| == 0 then EmptyDictionary
      else if "name" in entries && "age" in entries then Person(entries["name"], entries["age"])
      else UnknownType("dict")
    case Other(t) => UnknownType(t)
  }

  /**
   Every value is answered by exactly one clause, the first that accepts it;
   the catch-all makes the matcher total.
   */
  lemma FirstAcceptingClause(v: Value, k: nat)
    requires ClauseAccepts(k, v)
    ensures ClauseOf(AnalyseDataStructure(v)) <= k
    ensures k == ClauseOf(AnalyseDataStructure(v))
            <==> forall j :: 0 <= j < k ==> !ClauseAccepts(j, v)
  {
  }

  /** Lists of three to six items match no list clause and reach the catch-all. */
  lemma MidLengthListsFallThrough(items: seq<Value>)
    requires 3 <= |items| <= 6
    ensures AnalyseDataStructure(List(items)) == UnknownType("list")
  {
  }

  /** A list of seven or more items is "long" and reports its first item. */
  lemma LongListsReportFirst(items: seq<Value>)
    requires |items| >= 7
    ensures AnalyseDataStructure(List(items)) == LongList(items[0])
  {
  }

  /** A two-item list reports both items in order. */
  lemma TwoItemLists(a: Value, b: Value)
    ensures AnalyseDataStructure(List([a, b])) == TwoItemList(a, b)
  {
  }

  /** A dictionary with both "name" and "age" is a person, whatever other keys it has. */
  lemma PersonAllowsExtraKeys(entries: map<string, Value>)
    requires "name" in entries && "age" in entries
    ensures AnalyseDataStructure(Dict(entries)) == Person(entries["name"], entries["age"])
  {
  }

  /** A non-empty dictionary missing either key reaches the catch-all. */
  lemma IncompletePersonIsUnknown(entries: map<string, Value>)
    requires |entries| > 0
    requires "name" !in entries || "age" !in entries
    ensures AnalyseDataStructure(Dict(entries)) == UnknownType("dict")
  {
  }

  /** The fixed text that opens the message of each clause. */
  function Lead(shape: Shape): string {
    match shape
    case PositiveInteger(_) => "Positive integer: "
    case NegativeInteger(_) => "Negative integer: "
    case Zero => "Zero"
    case EmptyString => "Empty string"
    case StringOfLength(_) => "String with "
    case EmptyList => "Empty list"
    case OneItemList(_) => "List with one item: "
    case LongList(_) => "Long list starting with "
    case TwoItemList(_, _) => "Two-item list: "
    case EmptyDictionary => "Empty dictionary"
    case Person(_, _) => "Person: "
    case UnknownType(_) => "Unknown data type: <class '"
  }

  const CharactersSuffix := " characters"

  /**
   The message conditionals.py prints for a shape. Integers and lengths are
   printed as Python's `str()` prints them; a payload value is printed by
   `show`, which stands for Python's `str()` of an arbitrary object.
   */
  function Describe(shape: Shape, show: Value -> string): (r: string)
    ensures |Lead(shape)| <= |r| && r[..|Lead(shape)|] == Lead(shape)
    ensures shape.Zero? || shape.EmptyString? || shape.EmptyList? || shape.EmptyDictionary? ==> r == Lead(shape)
    ensures shape.PositiveInteger? || shape.NegativeInteger? ==>
              r[|Lead(shape)|..] == IntToString(shape.n) && ParseInt(r[|Lead(shape)|..]) == Some(shape.n)
    ensures shape.StringOfLength? ==> r == Lead(shape) + IntToString(shape.length) + CharactersSuffix
    ensures shape.StringOfLength? ==>
              && |r| > |Lead(shape)| + |CharactersSuffix|
              && r[|r| - |CharactersSuffix|..] == CharactersSuffix
              && ParseInt(r[|Lead(shape)|..|r| - |CharactersSuffix|]) == Some(shape.length)
    ensures shape.OneItemList? ==> r[|Lead(shape)|..] == show(shape.item)
    ensures shape.LongList? ==> r[|Lead(shape)|..] == show(shape.first)
    ensures shape.TwoItemList? ==> r[|Lead(shape)|..] == show(shape.first) + ", " + show(shape.second)
    ensures shape.Person? ==> r[|Lead(shape)|..] == show(shape.name) + ", age " + show(shape.age)
    ensures shape.UnknownType? ==> r[|Lead(shape)|..] == shape.typeName + "'>"
  {
    match shape
    case PositiveInteger(n) =>
      IntToStringRoundTrip(n);
      var r := Lead(shape) + IntToString(n);
      assert r[|Lead(shape)|..] == IntToString(n);
      r
    case NegativeInteger(n) =>
      IntToStringRoundTrip(n);
      var r := Lead(shape) + IntToString(n);
      assert r[|Lead(shape)|..] == IntToString(n);
      r
    case Zero => "Zero"
    case EmptyString => "Empty string"
    case StringOfLength(length) =>
      IntToStringRoundTrip(length);
      var r := Lead(shape) + IntToString(length) + CharactersSuffix;
      assert r[|Lead(shape)|..|r| - |CharactersSuffix|] == IntToString(length);
      r
    case EmptyList => "Empty list"
    case OneItemList(item) => Lead(shape) + show(item)
    case LongList(first) => Lead(shape) + show(first)
    case TwoItemList(first, second) => Lead(shape) + (show(first) + ", " + show(second))
    case EmptyDictionary => "Empty dictionary"
    case Person(name, age) => Lead(shape) + (show(name) + ", age " + show(age))
    case UnknownType(typeName) => Lead(shape) + (typeName + "'>")
  }

  /** Every integer gets a message of its own: the analysis and the message together lose nothing. */
  lemma IntegerMessagesDetermineValue(a: int, b: int, show: Value -> string)
    requires Describe(AnalyseDataStructure(Int(a)), show) == Describe(AnalyseDataStructure(Int(b)), show)
    ensures a == b
  {
    var sa, sb := AnalyseDataStructure(Int(a)), AnalyseDataStructure(Int(b));
    var r := Describe(sa, show);
    // The first letter, 'P', 'N' or 'Z', tells the three integer clauses apart.
    assert r[0] == Lead(sa)[0] == Lead(sb)[0];
    if sa.PositiveInteger? || sa.NegativeInteger? {
      assert Lead(sa) == Lead(sb);
      assert ParseInt(r[|Lead(sa)|..]) == Some(a);
      assert ParseInt(r[|Lead(sb)|..]) == Some(b);
    }
  }

  /** The message for a non-empty string gives its length back exactly. */
  lemma StringMessagesDetermineLength(s: string, t: string, show: Value -> string)
    requires Describe(AnalyseDataStructure(Str(s)), show) == Describe(AnalyseDataStructure(Str(t)), show)
    ensures |s| == |t|
  {
    var ss, st := AnalyseDataStructure(Str(s)), AnalyseDataStructure(Str(t));
    var r := Describe(ss, show);
    // "Empty string" and "String with ..." differ in their first letter.
    assert r[0] == Lead(ss)[0] == Lead(st)[0];
    if ss.StringOfLength? {
      assert ParseInt(r[|Lead(ss)|..|r| - |CharactersSuffix|]) == Some(|s|);
      assert ParseInt(r[|Lead(st)|..|r| - |CharactersSuffix|]) == Some(|t|);
    }
  }

  /** `analyse_data_structure(42)` */
  lemma PositiveExample(show: Value -> string)
    ensures Describe(AnalyseDataStructure(Int(42)), show) == "Positive integer: 42"
  {
    assert NatToString(4) == "4";
    assert NatToString(42) == "4" + "2";
  }

  /** `analyse_data_structure([1, 2, 3, 4, 5, 6, 7])`, with integers shown as Python shows them. */
  lemma LongListExample(show: Value -> string)
    requires show(Int(1)) == "1"
    ensures Describe(AnalyseDataStructure(List([Int(1), Int(2), Int(3), Int(4), Int(5), Int(6), Int(7)])), show)
            == "Long list starting with 1"
  {
  }

  /** `analyse_data_structure({"name": "Alice", "age": 25})`, with values shown as Python shows them. */
  lemma PersonExample(show: Value -> string)
    requires show(Str("Alice")) == "Alice" && show(Int(25)) == "25"
    ensures Describe(AnalyseDataStructure(Dict(map["name" := Str("Alice"), "age" := Int(25)])), show)
            == "Person: Alice, age 25"
  {
    var entries := map["name" := Str("Alice"), "age" := Int(25)];
    assert "name" in entries;
    assert |entries| != 0 by { assert entries.Keys != {}; }
  }

  /** `analyse_data_structure([1, 2, 3])` names the list type in the catch-all. */
  lemma MidListExample(show: Value -> string)
    ensures Describe(AnalyseDataStructure(List([Int(1), Int(2), Int(3)])), show)
            == "Unknown data type: <class 'list'>"
  {
  }
}
