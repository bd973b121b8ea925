/** Stripping secrets from anything that is written down: `redactValue` of
    src/lib/redaction.ts, over values that may be shared or cyclic. */
module Redaction {

  type NodeId = nat

  /** Date.prototype.toISOString gives 24 or 27 characters. */
  type IsoText = s: string | |s| <= 27 witness ""

  datatype Entry = Entry(key: string, value: Value)

  /** A JavaScript value. Containers are written in place or, where they are
      shared or part of a cycle, referred to by a heap address. Other is a
      bigint, a symbol or a function, with its `String(value)`. */
  datatype Value =
    | Null
    | Undefined
    | Bool(b: bool)
    | Number(n: real)
    | Text(s: string)
    | Date(iso: IsoText)
    | Other(text: string)
    | Array(items: seq<Value>)
    | Object(entries: seq<Entry>)
    | Ref(id: NodeId)

  datatype Node = ArrayNode(items: seq<Value>) | ObjectNode(entries: seq<Entry>)
  type Heap = map<NodeId, Node>

  datatype JsonEntry = JsonEntry(key: string, value: JsonSafe)
  datatype JsonSafe =
    | JNull
    | JBool(b: bool)
    | JNumber(n: real)
    | JText(s: string)
    | JArray(items: seq<JsonSafe>)
    | JObject(entries: seq<JsonEntry>)

  const MAX_DEPTH := 6
  const MAX_ARRAY := 50
  const MAX_STRING := 2000
  const REDACTED := JText("[redacted]")
  const TRUNCATED := JText("[truncated]")
  const ELLIPSIS := '\U{2026}'

  const REDACTED_KEYS := {
    "password", "newpassword", "confirmpassword", "passwordhash", "token", "tokenhash",
    "secret", "apikey", "authorization", "cookie", "sessiontoken"
  }

  function Lower(s: string): string {
    seq(|s|, i requires 0 <= i < |s| => if 'A' <= s[i] <= 'Z' then (s[i] as int + 32) as char else s[i])
  }

  predicate Sensitive(key: string) {
    Lower(key) in REDACTED_KEYS
  }

  /** Assigning `result["__proto__"]` makes no own property. */
  predicate Kept(key: string) {
    key != "__proto__"
  }

  function Open(heap: Heap, v: Value): (r: Value)
    ensures !r.Ref?
  {
    match v
    case Ref(id) =>
      if id !in heap then Undefined
      else
        (match heap[id]
         case ArrayNode(items) => Array(items)
         case ObjectNode(entries) => Object(entries))
    case _ => v
  }

  function First<T>(s: seq<T>, n: nat): (r: seq<T>)
    ensures |r| <= n && r <= s
  {
    if |s| > n then s[..n] else s
  }

  function Shorten(s: string): string {
    if |s| > MAX_STRING then s[..MAX_STRING] + [ELLIPSIS] else s
  }

  function Left(depth: nat): nat {
    if depth > MAX_DEPTH then 0 else MAX_DEPTH + 1 - depth
  }

  function Redact(heap: Heap, v: Value, depth: nat): JsonSafe
    decreases Left(depth), 1, 0
  {
    if depth > MAX_DEPTH then TRUNCATED
    else
      match Open(heap, v)
      case Null => JNull
      case Undefined => JNull
      case Array(items) =>
        var kept := First(items, MAX_ARRAY);
        JArray(seq(|kept|, i requires 0 <= i < |kept| => Redact(heap, kept[i], depth + 1)))
      case Date(iso) => JText(iso)
      case Object(entries) => JObject(RedactEntries(heap, entries, depth))
      case Text(s) => JText(Shorten(s))
      case Number(n) => JNumber(n)
      case Bool(b) => JBool(b)
      case Other(text) => JText(text)
  }

  function RedactEntry(heap: Heap, e: Entry, depth: nat): JsonEntry
    requires depth <= MAX_DEPTH
    decreases Left(depth), 0, 0
  {
    JsonEntry(e.key, if Sensitive(e.key) then REDACTED else Redact(heap, e.value, depth + 1))
  }

  function RedactEntries(heap: Heap, entries: seq<Entry>, depth: nat): seq<JsonEntry>
    requires depth <= MAX_DEPTH
    decreases Left(depth), 0, |entries| + 1
  {
    if entries == [] then []
    else
      var last := |entries| - 1;
      RedactEntries(heap, entries[..last], depth)
      + (if Kept(entries[last].key) then [RedactEntry(heap, entries[last], depth)] else [])
  }

  lemma NoEntries(heap: Heap, depth: nat)
    requires depth <= MAX_DEPTH
    ensures RedactEntries(heap, [], depth) == []
  {
  }

  lemma OneMoreEntry(heap: Heap, entries: seq<Entry>, i: nat, depth: nat)
    requires depth <= MAX_DEPTH && i < |entries|
    ensures RedactEntries(heap, entries[..i + 1], depth)
            == RedactEntries(heap, entries[..i], depth)
               + if Kept(entries[i].key) then [RedactEntry(heap, entries[i], depth)] else []
  {
    assert entries[..i + 1][..i] == entries[..i];
  }

  /** The function as it runs: a slice and a map over arrays, a loop that fills
      the result record over objects. */
  method RedactValue(heap: Heap, v: Value, depth: nat) returns (r: JsonSafe)
    ensures r == Redact(heap, v, depth)
    decreases Left(depth)
  {
    hide Sensitive, Shorten, Kept, RedactEntries;
    if depth > MAX_DEPTH {
      return TRUNCATED;
    }
    match Open(heap, v) {
      case Null => r := JNull;
      case Undefined => r := JNull;
      case Array(items) =>
        var kept := First(items, MAX_ARRAY);
        var mapped: seq<JsonSafe> := [];
        for i := 0 to |kept|
          invariant |mapped| == i
          invariant forall k | 0 <= k < i :: mapped[k] == Redact(heap, kept[k], depth + 1)
        {
          var item := RedactValue(heap, kept[i], depth + 1);
          mapped := mapped + [item];
        }
        assert mapped == Redact(heap, v, depth).items;
        r := JArray(mapped);
      case Date(iso) => r := JText(iso);
      case Object(entries) =>
        var result: seq<JsonEntry> := [];
        NoEntries(heap, depth);
        for i := 0 to |entries|
          invariant result == RedactEntries(heap, entries[..i], depth)
        {
          var item := REDACTED;
          if !Sensitive(entries[i].key) {
            item := RedactValue(heap, entries[i].value, depth + 1);
          }
          OneMoreEntry(heap, entries, i, depth);
          if Kept(entries[i].key) {
            result := result + [JsonEntry(entries[i].key, item)];
          }
        }
        assert entries[..|entries|] == entries;
        r := JObject(result);
      case Text(s) => r := JText(Shorten(s));
      case Number(n) => r := JNumber(n);
      case Bool(b) => r := JBool(b);
      case Other(text) => r := JText(text);
    }
  }

  // ----- what the walk reaches

  /** What may be asked of a text that is written out as it is. */
  datatype Test = AtMost(limit: nat) | Unshortened

  predicate Passes(test: Test, text: string) {
    match test
    case AtMost(limit) => |text| <= limit
    case Unshortened => Shorten(text) == text
  }

  /** Every bigint, symbol or function the walk writes out has a text that
      passes the test. */
  ghost predicate OthersPass(heap: Heap, v: Value, depth: nat, test: Test)
    decreases Left(depth), 1, 0
  {
    depth <= MAX_DEPTH ==>
      match Open(heap, v)
      case Array(items) =>
        var kept := First(items, MAX_ARRAY);
        forall i | 0 <= i < |kept| :: OthersPass(heap, kept[i], depth + 1, test)
      case Object(entries) =>
        forall i | 0 <= i < |entries| :: EntryPasses(heap, entries[i], depth, test)
      case Other(text) => Passes(test, text)
      case _ => true
  }

  ghost predicate EntryPasses(heap: Heap, e: Entry, depth: nat, test: Test)
    requires depth <= MAX_DEPTH
    decreases Left(depth), 0, 0
  {
    Kept(e.key) && !Sensitive(e.key) ==> OthersPass(heap, e.value, depth + 1, test)
  }

  ghost predicate EntriesPass(heap: Heap, entries: seq<Entry>, depth: nat, test: Test)
    requires depth <= MAX_DEPTH
  {
    forall i | 0 <= i < |entries| :: EntryPasses(heap, entries[i], depth, test)
  }

  lemma EntriesPassAppended(heap: Heap, entries: seq<Entry>, depth: nat, test: Test)
    requires depth <= MAX_DEPTH && entries != []
    ensures var last := |entries| - 1;
            EntriesPass(heap, entries, depth, test)
            <==> EntriesPass(heap, entries[..last], depth, test) && EntryPasses(heap, entries[last], depth, test)
  {
    hide EntryPasses;
    var last := |entries| - 1;
    if EntriesPass(heap, entries, depth, test) {
      assert EntryPasses(heap, entries[last], depth, test);
    }
  }

  // ----- what is kept

  /** A key counts as sensitive exactly when it is one of eleven names, in any
      mixture of upper and lower case. */
  predicate CaseVariant(s: string, name: string) {
    |s| == |name| && forall i | 0 <= i < |s| ::
      s[i] == name[i] || ('A' <= s[i] <= 'Z' && s[i] as int - 'A' as int == name[i] as int - 'a' as int)
  }

  lemma LowerOfVariant(s: string, name: string)
    requires forall i | 0 <= i < |name| :: 'a' <= name[i] <= 'z'
    ensures Lower(s) == name <==> CaseVariant(s, name)
  {
  }

  lemma SensitiveNames(key: string)
    ensures Sensitive(key)
            <==> || CaseVariant(key, "password") || CaseVariant(key, "newpassword")
                 || CaseVariant(key, "confirmpassword") || CaseVariant(key, "passwordhash")
                 || CaseVariant(key, "token") || CaseVariant(key, "tokenhash") || CaseVariant(key, "sessiontoken")
                 || CaseVariant(key, "secret") || CaseVariant(key, "apikey")
                 || CaseVariant(key, "authorization") || CaseVariant(key, "cookie")
  {
    hide Lower, CaseVariant;
    LowerOfVariant(key, "password");
    LowerOfVariant(key, "newpassword");
    LowerOfVariant(key, "confirmpassword");
    LowerOfVariant(key, "passwordhash");
    LowerOfVariant(key, "token");
    LowerOfVariant(key, "tokenhash");
    LowerOfVariant(key, "sessiontoken");
    LowerOfVariant(key, "secret");
    LowerOfVariant(key, "apikey");
    LowerOfVariant(key, "authorization");
    LowerOfVariant(key, "cookie");
  }

  /** A step into a container: an array index or a key. */
  datatype Step = At(index: nat) | Under(key: string)

  /** A step that redaction does not cut off. */
  predicate KeptOpen(step: Step) {
    match step
    case At(index) => index < 50
    case Under(key) => key != "__proto__" && !Sensitive(key)
  }

  /** A reference stands for the node at its address, everything else for itself. */
  lemma ReferencesResolve(heap: Heap, v: Value, id: NodeId, items: seq<Value>, entries: seq<Entry>)
    ensures !v.Ref? ==> Open(heap, v) == v
    ensures id in heap && heap[id] == ArrayNode(items) ==> Open(heap, Ref(id)) == Array(items)
    ensures id in heap && heap[id] == ObjectNode(entries) ==> Open(heap, Ref(id)) == Object(entries)
  {
  }

  /** Following the path from the value, references resolved, leads to `end`. */
  ghost predicate Leads(heap: Heap, v: Value, path: seq<Step>, end: Value)
    decreases |path|
  {
    if path == [] then Open(heap, v) == end
    else
      match path[0]
      case At(index) =>
        Open(heap, v).Array? && index < |Open(heap, v).items|
        && Leads(heap, Open(heap, v).items[index], path[1..], end)
      case Under(key) =>
        Open(heap, v).Object?
        && exists e | e in Open(heap, v).entries :: e.key == key && Leads(heap, e.value, path[1..], end)
  }

  ghost predicate Shows(j: JsonSafe, path: seq<Step>, end: JsonSafe)
    decreases |path|
  {
    if path == [] then j == end
    else
      match path[0]
      case At(index) => j.JArray? && index < |j.items| && Shows(j.items[index], path[1..], end)
      case Under(key) => j.JObject? && exists e | e in j.entries :: e.key == key && Shows(e.value, path[1..], end)
  }

  function KeysOf(entries: seq<Entry>): seq<string> {
    if entries == [] then []
    else KeysOf(entries[..|entries| - 1])
         + (if entries[|entries| - 1].key == "__proto__" then [] else [entries[|entries| - 1].key])
  }

  /** How a value is written down: scalars as they are, nothing as null, a text
      of more than 2,000 characters cut there with an ellipsis; an array with its
      first 50 items, an object with its keys in their order. */
  predicate WrittenAs(v: Value, j: JsonSafe) {
    match v
    case Null => j == JNull
    case Undefined => j == JNull
    case Bool(b) => j == JBool(b)
    case Number(n) => j == JNumber(n)
    case Date(iso) => j == JText(iso)
    case Other(text) => j == JText(text)
    case Text(s) =>
      && j.JText?
      && (if |s| <= 2000 then j.s == s
          else |j.s| == 2001 && j.s[..2000] == s[..2000] && j.s[2000] == '\U{2026}')
    case Array(items) => j.JArray? && |j.items| == if |items| <= 50 then |items| else 50
    case Object(entries) =>
      j.JObject? && |j.entries| == |KeysOf(entries)|
      && forall i | 0 <= i < |j.entries| :: j.entries[i].key == KeysOf(entries)[i]
    case Ref(_) => false
  }

  lemma {:induction false} EntryShown(heap: Heap, entries: seq<Entry>, e: Entry, depth: nat)
    requires depth <= MAX_DEPTH && e in entries && Kept(e.key)
    ensures RedactEntry(heap, e, depth) in RedactEntries(heap, entries, depth)
  {
    var last := |entries| - 1;
    if entries[last] != e {
      assert entries == entries[..last] + [entries[last]];
      EntryShown(heap, entries[..last], e, depth);
    }
  }

  lemma {:induction false} KeysShown(heap: Heap, entries: seq<Entry>, depth: nat)
    requires depth <= MAX_DEPTH
    ensures var es := RedactEntries(heap, entries, depth);
            |es| == |KeysOf(entries)| && forall i | 0 <= i < |es| :: es[i].key == KeysOf(entries)[i]
  {
    if entries != [] {
      KeysShown(heap, entries[..|entries| - 1], depth);
      hide Redact, Sensitive;
    }
  }

  lemma WrittenDown(heap: Heap, v: Value, depth: nat)
    requires depth <= 6
    ensures WrittenAs(Open(heap, v), Redact(heap, v, depth))
  {
    if Open(heap, v).Object? {
      KeysShown(heap, Open(heap, v).entries, depth);
      hide RedactEntries, KeysOf;
    }
  }

  ghost predicate LeadsOn(heap: Heap, v: Value, step: Step, w: Value) {
    match step
    case At(index) => Open(heap, v).Array? && index < |Open(heap, v).items| && w == Open(heap, v).items[index]
    case Under(key) => Open(heap, v).Object? && exists e | e in Open(heap, v).entries :: e.key == key && e.value == w
  }

  lemma FirstStep(heap: Heap, v: Value, path: seq<Step>, end: Value) returns (w: Value)
    requires path != [] && Leads(heap, v, path, end)
    ensures LeadsOn(heap, v, path[0], w) && Leads(heap, w, path[1..], end)
  {
    match path[0] {
      case At(index) => w := Open(heap, v).items[index];
      case Under(key) =>
        var e :| e in Open(heap, v).entries && e.key == key && Leads(heap, e.value, path[1..], end);
        w := e.value;
    }
  }

  lemma StepShown(heap: Heap, v: Value, path: seq<Step>, w: Value, depth: nat, j: JsonSafe)
    requires depth <= MAX_DEPTH && path != [] && KeptOpen(path[0]) && LeadsOn(heap, v, path[0], w)
    requires Shows(Redact(heap, w, depth + 1), path[1..], j)
    ensures Shows(Redact(heap, v, depth), path, j)
  {
    match path[0] {
      case At(index) => ItemShown(heap, v, index, depth);
      case Under(key) => ValueShown(heap, v, key, w, depth);
    }
    hide Redact;
  }

  lemma ValueShown(heap: Heap, v: Value, key: string, w: Value, depth: nat)
    requires depth <= MAX_DEPTH && KeptOpen(Under(key)) && LeadsOn(heap, v, Under(key), w)
    ensures Redact(heap, v, depth).JObject?
    ensures JsonEntry(key, Redact(heap, w, depth + 1)) in Redact(heap, v, depth).entries
  {
    var e :| e in Open(heap, v).entries && e.key == key && e.value == w;
    EntryShown(heap, Open(heap, v).entries, e, depth);
    hide RedactEntries;
    assert RedactEntry(heap, e, depth) == JsonEntry(key, Redact(heap, w, depth + 1));
  }

  lemma ItemShown(heap: Heap, v: Value, index: nat, depth: nat)
    requires depth <= MAX_DEPTH && Open(heap, v).Array? && index < |Open(heap, v).items| && index < 50
    ensures Redact(heap, v, depth).JArray? && index < |Redact(heap, v, depth).items|
    ensures Redact(heap, v, depth).items[index] == Redact(heap, Open(heap, v).items[index], depth + 1)
  {
  }

  /** Nothing harmless is lost: a path of at most six steps through the first 50
      items of arrays and through keys that are not sensitive leads in the output
      to what it leads to in the input, as it is written down. One step further
      everything reads [truncated]. */
  lemma {:induction false} ContentSurvives(heap: Heap, v: Value, path: seq<Step>, end: Value, depth: nat)
    requires depth + |path| <= 7 && Leads(heap, v, path, end)
    requires forall i | 0 <= i < |path| :: KeptOpen(path[i])
    ensures depth + |path| <= 6 ==> exists j :: Shows(Redact(heap, v, depth), path, j) && WrittenAs(end, j)
    ensures depth + |path| == 7 ==> Shows(Redact(heap, v, depth), path, JText("[truncated]"))
    decreases |path|
  {
    hide Redact, WrittenAs, KeptOpen;
    if path == [] {
      if depth <= 6 {
        WrittenDown(heap, v, depth);
        assert Shows(Redact(heap, v, depth), path, Redact(heap, v, depth));
      } else {
        TooDeep(heap, v, depth);
      }
    } else {
      var w := FirstStep(heap, v, path, end);
      ContentSurvives(heap, w, path[1..], end, depth + 1);
      hide Shows, Leads, LeadsOn;
      if depth + |path| <= 6 {
        var j :| Shows(Redact(heap, w, depth + 1), path[1..], j) && WrittenAs(end, j);
        StepShown(heap, v, path, w, depth, j);
      } else {
        StepShown(heap, v, path, w, depth, JText("[truncated]"));
      }
    }
  }

  lemma TooDeep(heap: Heap, v: Value, depth: nat)
    requires depth == 7
    ensures Redact(heap, v, depth) == JText("[truncated]")
  {
  }

  // ----- the output is bounded

  /** At most `levels` nested containers, 50 items to an array, `longest`
      characters to a string. */
  predicate Bounded(j: JsonSafe, levels: nat, longest: nat) {
    match j
    case JText(s) => |s| <= longest
    case JArray(items) =>
      levels > 0 && |items| <= MAX_ARRAY && forall i | 0 <= i < |items| :: Bounded(items[i], levels - 1, longest)
    case JObject(entries) =>
      levels > 0 && forall i | 0 <= i < |entries| :: Bounded(entries[i].value, levels - 1, longest)
    case _ => true
  }

  predicate AllBounded(es: seq<JsonEntry>, levels: nat, longest: nat) {
    forall i | 0 <= i < |es| :: Bounded(es[i].value, levels, longest)
  }

  /** The output is bounded exactly when no over-long bigint, symbol or function
      is written out; cycles cannot make it otherwise. */
  lemma {:induction false} OutputIsBounded(heap: Heap, v: Value, depth: nat)
    requires depth <= MAX_DEPTH + 1
    ensures Bounded(Redact(heap, v, depth), MAX_DEPTH + 1 - depth, MAX_STRING + 1)
            <==> OthersPass(heap, v, depth, AtMost(MAX_STRING + 1))
    decreases Left(depth)
  {
    if depth <= MAX_DEPTH {
      var shape := Open(heap, v);
      if shape.Array? {
        ArrayIsBounded(heap, First(shape.items, MAX_ARRAY), Redact(heap, v, depth).items, depth);
      } else if shape.Object? {
        hide RedactEntries, EntryPasses, Sensitive;
        EntriesAreBounded(heap, shape.entries, depth);
      } else {
        hide RedactEntries, EntryPasses, Sensitive, Lower;
      }
    }
  }

  lemma ArrayIsBounded(heap: Heap, kept: seq<Value>, items: seq<JsonSafe>, depth: nat)
    requires depth <= MAX_DEPTH && |items| == |kept|
    requires forall i | 0 <= i < |kept| :: items[i] == Redact(heap, kept[i], depth + 1)
    ensures (forall i | 0 <= i < |items| :: Bounded(items[i], MAX_DEPTH - depth, MAX_STRING + 1))
            <==> (forall i | 0 <= i < |kept| :: OthersPass(heap, kept[i], depth + 1, AtMost(MAX_STRING + 1)))
    decreases Left(depth), 0, 0
  {
    hide Redact, OthersPass, Bounded;
    forall i | 0 <= i < |kept|
      ensures Bounded(items[i], MAX_DEPTH - depth, MAX_STRING + 1)
              <==> OthersPass(heap, kept[i], depth + 1, AtMost(MAX_STRING + 1))
    {
      OutputIsBounded(heap, kept[i], depth + 1);
    }
  }

  lemma {:induction false} EntriesAreBounded(heap: Heap, entries: seq<Entry>, depth: nat)
    requires depth <= MAX_DEPTH
    ensures AllBounded(RedactEntries(heap, entries, depth), MAX_DEPTH - depth, MAX_STRING + 1)
            <==> EntriesPass(heap, entries, depth, AtMost(MAX_STRING + 1))
    decreases Left(depth), 0, |entries|
  {
    if entries != [] {
      var last := |entries| - 1;
      var e, front := entries[last], RedactEntries(heap, entries[..last], depth);
      var es := RedactEntries(heap, entries, depth);
      assert es == if Kept(e.key) then front + [RedactEntry(heap, e, depth)] else front;
      hide RedactEntries, EntriesPass, RedactEntry, Bounded, AllBounded;
      EntriesAreBounded(heap, entries[..last], depth);
      EntriesPassAppended(heap, entries, depth, AtMost(MAX_STRING + 1));
      if Kept(e.key) {
        EntryIsBounded(heap, e, depth);
        AllBoundedAppended(front, RedactEntry(heap, e, depth), MAX_DEPTH - depth, MAX_STRING + 1);
      }
    }
  }

  lemma EntryIsBounded(heap: Heap, e: Entry, depth: nat)
    requires depth <= MAX_DEPTH && Kept(e.key)
    ensures Bounded(RedactEntry(heap, e, depth).value, MAX_DEPTH - depth, MAX_STRING + 1)
            <==> EntryPasses(heap, e, depth, AtMost(MAX_STRING + 1))
    decreases Left(depth), 0, 0
  {
    hide Redact, OthersPass, Lower;
    if !Sensitive(e.key) {
      OutputIsBounded(heap, e.value, depth + 1);
    }
  }

  lemma AllBoundedAppended(front: seq<JsonEntry>, j: JsonEntry, levels: nat, longest: nat)
    ensures AllBounded(front + [j], levels, longest)
            <==> AllBounded(front, levels, longest) && Bounded(j.value, levels, longest)
  {
    hide Bounded;
    var es := front + [j];
    assert es[|front|] == j && forall i | 0 <= i < |front| :: es[i] == front[i];
  }

  // ----- no secret survives

  /** Every entry with a sensitive key reads [redacted], at every level. */
  predicate Scrubbed(j: JsonSafe) {
    match j
    case JArray(items) => forall i | 0 <= i < |items| :: Scrubbed(items[i])
    case JObject(entries) =>
      forall i | 0 <= i < |entries| ::
        if Sensitive(entries[i].key) then entries[i].value == JText("[redacted]") else Scrubbed(entries[i].value)
    case _ => true
  }

  predicate EntryScrubbed(j: JsonEntry) {
    if Sensitive(j.key) then j.value == JText("[redacted]") else Scrubbed(j.value)
  }

  predicate AllScrubbed(es: seq<JsonEntry>) {
    forall i | 0 <= i < |es| :: EntryScrubbed(es[i])
  }

  lemma {:induction false} OutputIsScrubbed(heap: Heap, v: Value, depth: nat)
    ensures Scrubbed(Redact(heap, v, depth))
    decreases Left(depth)
  {
    if depth <= MAX_DEPTH {
      var shape := Open(heap, v);
      if shape.Array? {
        var kept := First(shape.items, MAX_ARRAY);
        forall i | 0 <= i < |kept|
          ensures Scrubbed(Redact(heap, kept[i], depth + 1))
        {
          OutputIsScrubbed(heap, kept[i], depth + 1);
        }
      } else if shape.Object? {
        hide RedactEntries, Sensitive;
        EntriesAreScrubbed(heap, shape.entries, depth);
      }
    }
  }

  lemma {:induction false} EntriesAreScrubbed(heap: Heap, entries: seq<Entry>, depth: nat)
    requires depth <= MAX_DEPTH
    ensures AllScrubbed(RedactEntries(heap, entries, depth))
    decreases Left(depth), 0, |entries|
  {
    if entries != [] {
      var last := |entries| - 1;
      EntriesAreScrubbed(heap, entries[..last], depth);
      OutputIsScrubbed(heap, entries[last].value, depth + 1);
      hide Redact, Scrubbed, Sensitive;
    }
  }

  /** Two values that differ at most under sensitive keys. Addresses they both
      show have to be public. */
  predicate Agree(v: Value, w: Value, public: set<NodeId>) {
    match v
    case Ref(id) => w == v && id in public
    case Array(items) =>
      && w.Array? && |w.items| == |items|
      && forall i | 0 <= i < |items| :: Agree(items[i], w.items[i], public)
    case Object(entries) =>
      && w.Object? && |w.entries| == |entries|
      && forall i | 0 <= i < |entries| ::
           && w.entries[i].key == entries[i].key
           && (Sensitive(entries[i].key) || Agree(entries[i].value, w.entries[i].value, public))
    case _ => w == v
  }

  /** Two heaps whose public nodes differ at most under sensitive keys; private
      nodes may be anything. */
  predicate HeapsAgree(h: Heap, k: Heap, public: set<NodeId>) {
    forall id | id in public ::
      id in h && id in k && Agree(Open(h, Ref(id)), Open(k, Ref(id)), public)
  }

  /** Non-interference: what is written down does not depend on anything stored
      under a sensitive key, on cyclic values too. */
  lemma {:induction false} SecretsDoNotShow(h: Heap, k: Heap, v: Value, w: Value, public: set<NodeId>, depth: nat)
    requires HeapsAgree(h, k, public) && Agree(v, w, public)
    ensures Redact(h, v, depth) == Redact(k, w, depth)
    decreases Left(depth)
  {
    if depth <= MAX_DEPTH {
      var a, b := Open(h, v), Open(k, w);
      assert Agree(a, b, public);
      if a.Array? {
        SecretItemsDoNotShow(h, k, First(a.items, MAX_ARRAY), First(b.items, MAX_ARRAY), public, depth);
      } else if a.Object? {
        SecretEntriesDoNotShow(h, k, a.entries, b.entries, public, depth);
      }
    }
  }

  lemma SecretItemsDoNotShow(h: Heap, k: Heap, x: seq<Value>, y: seq<Value>, public: set<NodeId>, depth: nat)
    requires depth <= MAX_DEPTH && HeapsAgree(h, k, public) && |x| == |y|
    requires forall i | 0 <= i < |x| :: Agree(x[i], y[i], public)
    ensures seq(|x|, i requires 0 <= i < |x| => Redact(h, x[i], depth + 1))
            == seq(|y|, i requires 0 <= i < |y| => Redact(k, y[i], depth + 1))
    decreases Left(depth), 0, 0
  {
    forall i | 0 <= i < |x|
      ensures Redact(h, x[i], depth + 1) == Redact(k, y[i], depth + 1)
    {
      SecretsDoNotShow(h, k, x[i], y[i], public, depth + 1);
    }
  }

  lemma {:induction false} SecretEntriesDoNotShow(h: Heap, k: Heap, x: seq<Entry>, y: seq<Entry>,
                                                  public: set<NodeId>, depth: nat)
    requires depth <= MAX_DEPTH && HeapsAgree(h, k, public) && |x| == |y|
    requires forall i | 0 <= i < |x| ::
               y[i].key == x[i].key && (Sensitive(x[i].key) || Agree(x[i].value, y[i].value, public))
    ensures RedactEntries(h, x, depth) == RedactEntries(k, y, depth)
    decreases Left(depth), 0, |x|
  {
    if x != [] {
      var last := |x| - 1;
      SecretEntriesDoNotShow(h, k, x[..last], y[..last], public, depth);
      if !Sensitive(x[last].key) {
        SecretsDoNotShow(h, k, x[last].value, y[last].value, public, depth + 1);
      }
    }
  }

  // ----- redacting twice

  /** The output as an input: a plain tree. */
  function Embed(j: JsonSafe): Value {
    match j
    case JNull => Null
    case JBool(b) => Bool(b)
    case JNumber(n) => Number(n)
    case JText(s) => Text(s)
    case JArray(items) => Array(seq(|items|, i requires 0 <= i < |items| => Embed(items[i])))
    case JObject(entries) =>
      Object(seq(|entries|, i requires 0 <= i < |entries| => Entry(entries[i].key, Embed(entries[i].value))))
  }

  function Again(heap: Heap, v: Value, depth: nat): JsonSafe {
    Redact(map[], Embed(Redact(heap, v, depth)), depth)
  }

  /** Redacting what was already redacted changes nothing, exactly when every
      bigint, symbol or function written out is one that shortening leaves alone. */
  lemma {:induction false} RedactionIsIdempotent(heap: Heap, v: Value, depth: nat)
    ensures Again(heap, v, depth) == Redact(heap, v, depth) <==> OthersPass(heap, v, depth, Unshortened)
    decreases Left(depth)
  {
    hide Again, Redact, OthersPass, Open;
    if depth <= MAX_DEPTH && Open(heap, v).Array? {
      IdempotentArray(heap, v, First(Open(heap, v).items, MAX_ARRAY), depth);
    } else if depth <= MAX_DEPTH && Open(heap, v).Object? {
      IdempotentObject(heap, v, depth);
    } else {
      IdempotentLeaf(heap, v, depth);
    }
  }

  lemma IdempotentLeaf(heap: Heap, v: Value, depth: nat)
    requires depth <= MAX_DEPTH ==> !Open(heap, v).Array? && !Open(heap, v).Object?
    ensures Again(heap, v, depth) == Redact(heap, v, depth) <==> OthersPass(heap, v, depth, Unshortened)
  {
    hide RedactEntries, EntryPasses;
  }

  lemma IdempotentObject(heap: Heap, v: Value, depth: nat)
    requires depth <= MAX_DEPTH && Open(heap, v).Object?
    ensures Again(heap, v, depth) == Redact(heap, v, depth) <==> OthersPass(heap, v, depth, Unshortened)
    decreases Left(depth), 1
  {
    var entries := Open(heap, v).entries;
    AgainOfObject(heap, v, depth);
    assert OthersPass(heap, v, depth, Unshortened) <==> EntriesPass(heap, entries, depth, Unshortened);
    hide Again, Redact, RedactEntries, OthersPass, Open;
    IdempotentEntries(heap, entries, depth);
  }

  lemma AgainOfObject(heap: Heap, v: Value, depth: nat)
    requires depth <= MAX_DEPTH && Open(heap, v).Object?
    ensures var once := RedactEntries(heap, Open(heap, v).entries, depth);
            && Redact(heap, v, depth) == JObject(once)
            && Again(heap, v, depth) == JObject(RedactEntries(map[], EmbedEntries(once), depth))
  {
    hide RedactEntries;
  }

  lemma IdempotentArray(heap: Heap, v: Value, kept: seq<Value>, depth: nat)
    requires depth <= MAX_DEPTH && Open(heap, v).Array? && kept == First(Open(heap, v).items, MAX_ARRAY)
    ensures Again(heap, v, depth) == Redact(heap, v, depth) <==> OthersPass(heap, v, depth, Unshortened)
    decreases Left(depth), 1
  {
    hide Again, Redact;
    IdempotentItems(heap, v, kept, depth);
  }

  lemma IdempotentItems(heap: Heap, v: Value, kept: seq<Value>, depth: nat)
    requires depth <= MAX_DEPTH && Open(heap, v).Array? && kept == First(Open(heap, v).items, MAX_ARRAY)
    ensures Again(heap, v, depth) == Redact(heap, v, depth)
            <==> forall i | 0 <= i < |kept| :: OthersPass(heap, kept[i], depth + 1, Unshortened)
    decreases Left(depth), 0
  {
    hide Open, OthersPass, Again, Redact;
    AgainOfArray(heap, v, kept, depth);
    var once, twice := Redact(heap, v, depth).items, Again(heap, v, depth).items;
    forall i | 0 <= i < |kept|
      ensures twice[i] == once[i] <==> OthersPass(heap, kept[i], depth + 1, Unshortened)
    {
      RedactionIsIdempotent(heap, kept[i], depth + 1);
    }
    assert twice == once <==> forall i | 0 <= i < |kept| :: twice[i] == once[i];
  }

  lemma AgainOfArray(heap: Heap, v: Value, kept: seq<Value>, depth: nat)
    requires depth <= MAX_DEPTH && Open(heap, v).Array? && kept == First(Open(heap, v).items, MAX_ARRAY)
    ensures Redact(heap, v, depth).JArray? && Again(heap, v, depth).JArray?
    ensures |Redact(heap, v, depth).items| == |Again(heap, v, depth).items| == |kept|
    ensures forall i | 0 <= i < |kept| ::
              && Redact(heap, v, depth).items[i] == Redact(heap, kept[i], depth + 1)
              && Again(heap, v, depth).items[i] == Again(heap, kept[i], depth + 1)
  {
    var once := Redact(heap, v, depth).items;
    var embedded := Embed(JArray(once)).items;
    assert First(embedded, MAX_ARRAY) == embedded;
  }

  function EmbedEntries(es: seq<JsonEntry>): seq<Entry> {
    seq(|es|, i requires 0 <= i < |es| => Entry(es[i].key, Embed(es[i].value)))
  }

  lemma {:induction false} IdempotentEntries(heap: Heap, entries: seq<Entry>, depth: nat)
    requires depth <= MAX_DEPTH
    ensures var once := RedactEntries(heap, entries, depth);
            var twice := RedactEntries(map[], EmbedEntries(once), depth);
            |twice| == |once| && (twice == once <==> EntriesPass(heap, entries, depth, Unshortened))
    decreases Left(depth), 0, |entries|
  {
    if entries != [] {
      var last := |entries| - 1;
      var e, front := entries[last], RedactEntries(heap, entries[..last], depth);
      IdempotentEntries(heap, entries[..last], depth);
      EntriesPassAppended(heap, entries, depth, Unshortened);
      var once := RedactEntries(heap, entries, depth);
      assert once == if Kept(e.key) then front + [RedactEntry(heap, e, depth)] else front;
      hide RedactEntries, RedactEntry, Embed, EmbedEntries, EntriesPass, Redact;
      if Kept(e.key) {
        var j := RedactEntry(heap, e, depth);
        IdempotentEntry(heap, e, depth);
        EmbedAppended(front, j, depth);
        SameAppended(RedactEntries(map[], EmbedEntries(front), depth), front,
                     RedactEntry(map[], Entry(j.key, Embed(j.value)), depth), j);
      }
    }
  }

  lemma IdempotentEntry(heap: Heap, e: Entry, depth: nat)
    requires depth <= MAX_DEPTH && Kept(e.key)
    ensures var j := RedactEntry(heap, e, depth);
            RedactEntry(map[], Entry(j.key, Embed(j.value)), depth) == j
            <==> EntryPasses(heap, e, depth, Unshortened)
    decreases Left(depth), 0, 0
  {
    hide Embed, Lower, OthersPass;
    if !Sensitive(e.key) {
      RedactionIsIdempotent(heap, e.value, depth + 1);
    }
  }

  lemma SameAppended<T>(x: seq<T>, y: seq<T>, a: T, b: T)
    requires |x| == |y|
    ensures x + [a] == y + [b] <==> x == y && a == b
  {
    if x + [a] == y + [b] {
      assert (x + [a])[|x|] == (y + [b])[|y|];
      assert (x + [a])[..|x|] == x && (y + [b])[..|y|] == y;
    }
  }

  lemma EmbedAppended(front: seq<JsonEntry>, j: JsonEntry, depth: nat)
    requires depth <= MAX_DEPTH && Kept(j.key)
    ensures RedactEntries(map[], EmbedEntries(front + [j]), depth)
            == RedactEntries(map[], EmbedEntries(front), depth)
               + [RedactEntry(map[], Entry(j.key, Embed(j.value)), depth)]
  {
    assert EmbedEntries(front + [j])[..|front|] == EmbedEntries(front);
  }

  /** A bigint of 2,001 digits is written out whole, and shortened the next time. */
  lemma LongBigintIsNotStable(digits: string)
    requires |digits| == MAX_STRING + 1 && digits[MAX_STRING] == '7'
    ensures Again(map[], Other(digits), 0) != Redact(map[], Other(digits), 0)
  {
    assert Shorten(digits)[MAX_STRING] == ELLIPSIS;
    RedactionIsIdempotent(map[], Other(digits), 0);
  }
}
