/** Metadata filtering: decides whether a filter hash applies to the metadata
    hash of an example or example group (rspec-core's `MetadataFilter`).

    A Ruby hash is modelled as an ordered sequence of entries; lookup finds the
    first entry with the key, as a hash with unique keys would. The runtime
    type tests of the source (`Array ===`, `Hash ===`, `Regexp`, `Proc`) become
    the constructors of `Value`. */
module MetadataFilter {

  datatype Option<T> = None | Some(value: T)

  /** Metadata keys (Ruby symbols), by name. */
  type Key = string

  const LocationsKey: Key := "locations"
  const IdsKey: Key := "ids"
  const RerunFilePathKey: Key := "rerun_file_path"
  const ScopedIdKey: Key := "scoped_id"
  const LineNumberKey: Key := "line_number"
  const AbsoluteFilePathKey: Key := "absolute_file_path"

  /** A regular expression, by its source text; matching is left to `World`. */
  datatype Regex = Regex(source: string)

  /** A Ruby proc: its identity and its declared arity. Its body is left to
      the call oracle. */
  datatype Proc = Proc(id: nat, arity: int)

  datatype Value =
    | Nil
    | Bool(b: bool)
    | Int(i: int)
    | Str(s: string)
    | Sym(name: string)
    | Pattern(re: Regex)
    | Callable(proc: Proc)
    | Hash(entries: seq<Entry>)
    | Array(elems: seq<Value>)
      /** The `:locations` filter value: absolute file path to the line
          numbers asked for in that file; unknown paths give `[]`. */
    | LineIndex(lines: map<string, seq<int>>)
      /** The `:ids` filter value: rerun file path to the scoped ids asked for. */
    | IdIndex(ids: map<string, set<string>>)

  datatype Entry = Entry(key: Key, val: Value)

  /** A metadata hash, and equally a filter hash. */
  type Metadata = seq<Entry>

  /** The aggregation `apply?` is called with: `:any?` or `:all?`. */
  datatype Predicate = Any | All

  /** Collaborators the filter consults but does not own. */
  datatype World = World(
    /** `Metadata.ascend`: in rspec-core the metadata itself, then each
        enclosing group's; the model assumes nothing about its shape. */
    ascend: Metadata -> seq<Metadata>,
    /** `RSpec.world.preceding_declaration_line`; `None` stands for nil. */
    precedingDeclarationLine: int -> Option<int>,
    /** Truthiness of `value =~ regexp`. */
    regexMatches: (Value, Regex) -> bool,
    /** `to_s` of values that are not strings, symbols, numbers, booleans or nil. */
    inspect: Value -> string)

  /** Truthiness of what a user proc returns when called with the given arguments. */
  type Calls = (Proc, seq<Value>) -> bool

  datatype Env = Env(world: World, calls: Calls)

  // ---------------------------------------------------------------------------
  // Hash access

  predicate HasKey(m: Metadata, k: Key) {
    exists i | 0 <= i < |m| :: m[i].key == k
  }

  /** `metadata[key]`, with `None` for a missing key. */
  function Lookup(m: Metadata, k: Key): (r: Option<Value>)
    ensures r.Some? <==> HasKey(m, k)
    ensures r.Some? ==> Entry(k, r.value) in m
  {
    if m == [] then None
    else if m[0].key == k then Some(m[0].val)
    else
      var r := Lookup(m[1..], k);
      assert HasKey(m, k) ==> HasKey(m[1..], k) by {
        if HasKey(m, k) {
          var i :| 0 <= i < |m| && m[i].key == k;
          assert m[1..][i - 1].key == k;
        }
      }
      r
  }

  /** `metadata[key]` as Ruby reads it: nil for a missing key. */
  function ValueAt(m: Metadata, k: Key): (r: Value)
    ensures HasKey(m, k) ==> Entry(k, r) in m
    ensures !HasKey(m, k) ==> r == Nil
  {
    match Lookup(m, k)
    case None => Nil
    case Some(v) => v
  }

  // ---------------------------------------------------------------------------
  // String forms

  function DigitChar(d: nat): char
    requires d < 10
  {
    "0123456789"[d]
  }

  function NatToString(n: nat): string
  {
    if n < 10 then [DigitChar(n)] else NatToString(n / 10) + [DigitChar(n % 10)]
  }

  /** Ruby's `to_s`. */
  function ToS(w: World, v: Value): string
  {
    match v
    case Nil => ""
    case Bool(b) => if b then "true" else "false"
    case Int(i) => if i < 0 then "-" + NatToString(-i) else NatToString(i)
    case Str(s) => s
    case Sym(name) => name
    case _ => w.inspect(v)
  }

  // ---------------------------------------------------------------------------
  // Sizes, the termination measure of the mutual recursion below

  function Size(v: Value): nat
  {
    match v
    case Hash(es) => 1 + EntriesSize(es)
    case Array(xs) => 1 + ValuesSize(xs)
    case _ => 1
  }

  function EntriesSize(es: seq<Entry>): nat
  {
    if es == [] then 0 else Size(es[0].val) + EntriesSize(es[1..])
  }

  function ValuesSize(xs: seq<Value>): nat
  {
    if xs == [] then 0 else Size(xs[0]) + ValuesSize(xs[1..])
  }

  /** Size of `metadata[key]`, zero when the key is missing. */
  function SizeAt(m: Metadata, k: Key): nat
  {
    match Lookup(m, k)
    case None => 0
    case Some(v) => Size(v)
  }

  lemma {:induction false} SizeAtBounded(m: Metadata, k: Key)
    ensures SizeAt(m, k) <= EntriesSize(m)
  {
    if m != [] && m[0].key != k {
      SizeAtBounded(m[1..], k);
    }
  }

  // ---------------------------------------------------------------------------
  // The evaluator

  /** `apply?`: the filter aggregated with `any?` or `all?`. */
  function Apply(env: Env, pred: Predicate, filters: Metadata, m: Metadata): bool
  {
    match pred
    case Any => AnyApplies(env, filters, m)
    case All => AllApply(env, filters, m)
  }

  /** `filters.any? { |k, v| filter_applies?(k, v, metadata) }`. */
  function AnyApplies(env: Env, filters: Metadata, m: Metadata): bool
  {
    filters != [] &&
    (FilterApplies(env, filters[0].key, filters[0].val, m) || AnyApplies(env, filters[1..], m))
  }

  /** `filters.all? { |k, v| filter_applies?(k, v, metadata) }`; also the body
      of `filters_apply?` once the sub-hash is found. */
  function AllApply(env: Env, filters: Metadata, m: Metadata): bool
    decreases EntriesSize(filters) + EntriesSize(m), 2
  {
    if filters == [] then true
    else
      SizeAtBounded(m, filters[0].key);
      FilterApplies(env, filters[0].key, filters[0].val, m) && AllApply(env, filters[1..], m)
  }

  /** `filter_applies_to_any_value?`: some element of the metadata's array
      applies, each element taking the place of the filter value and the
      filter value becoming the metadata `{key => value}`. */
  function AnyValueApplies(env: Env, key: Key, elems: seq<Value>, value: Value): bool
    decreases ValuesSize(elems) + Size(value), 2
  {
    elems != [] &&
    (FilterApplies(env, key, elems[0], [Entry(key, value)]) ||
     AnyValueApplies(env, key, elems[1..], value))
  }

  /** `filter_applies?`: whether the clause `key => value` applies to `m`. */
  function FilterApplies(env: Env, key: Key, value: Value, m: Metadata): bool
    decreases Size(value) + SizeAt(m, key), 1
  {
    var mv := Lookup(m, key);
    if mv.Some? && mv.value.Array? && !value.Callable? then
      AnyValueApplies(env, key, mv.value.elems, value)
    else if key == LocationsKey then
      LocationFilterApplies(env.world, value, m)
    else if key == IdsKey then
      IdFilterApplies(env.world, value, m)
    else if value.Hash? then
      // filters_apply?
      mv.Some? && mv.value.Hash? && AllApply(env, value.entries, mv.value.entries)
    else if mv.None? then
      false
    else
      match value
      case Pattern(re) => env.world.regexMatches(mv.value, re)
      case Callable(p) =>
        if p.arity == 0 then env.calls(p, [])
        else if p.arity == 2 then env.calls(p, [mv.value, Hash(m)])
        else env.calls(p, [mv.value])
      case _ => ToS(env.world, mv.value) == ToS(env.world, value)
  }

  // ---------------------------------------------------------------------------
  // The special keys :ids and :locations

  /** `id_filter_applies?`. */
  function IdFilterApplies(w: World, value: Value, m: Metadata): bool
  {
    match value
    case IdIndex(ids) =>
      (match Lookup(m, RerunFilePathKey)
       case Some(Str(path)) => path in ids && AnyScopedIdIn(w.ascend(m), ids[path])
       case _ => false)
    case _ => false
  }

  /** `Metadata.ascend(metadata).any? { |meta| scoped_ids.include?(meta[:scoped_id]) }`. */
  function AnyScopedIdIn(chain: seq<Metadata>, scopedIds: set<string>): bool
  {
    chain != [] &&
    ((match Lookup(chain[0], ScopedIdKey)
      case Some(Str(id)) => id in scopedIds
      case _ => false)
     || AnyScopedIdIn(chain[1..], scopedIds))
  }

  /** `location_filter_applies?`. */
  function LocationFilterApplies(w: World, value: Value, m: Metadata): bool
  {
    match value
    case LineIndex(lines) =>
      var lineNumbers := DeclarationLines(lines, w.ascend(m));
      lineNumbers == [] || LineNumberFilterApplies(w, lineNumbers, m)
    case _ => false
  }

  /** `locations[meta[:absolute_file_path]]`, with the empty-array default. */
  function LinesFor(lines: map<string, seq<int>>, meta: Metadata): seq<int>
  {
    match Lookup(meta, AbsoluteFilePathKey)
    case Some(Str(path)) => if path in lines then lines[path] else []
    case _ => []
  }

  /** `example_group_declaration_lines`, before `uniq` (which changes neither
      emptiness nor membership, the only things its caller asks). */
  function DeclarationLines(lines: map<string, seq<int>>, chain: seq<Metadata>): seq<int>
  {
    if chain == [] then [] else LinesFor(lines, chain[0]) + DeclarationLines(lines, chain[1..])
  }

  /** `relevant_line_numbers`: each ancestor's `:line_number`, nil when the
      key is missing. */
  function RelevantLineNumbers(chain: seq<Metadata>): seq<Value>
  {
    if chain == [] then [] else [ValueAt(chain[0], LineNumberKey)] + RelevantLineNumbers(chain[1..])
  }

  /** `line_numbers.map { |n| RSpec.world.preceding_declaration_line(n) }`. */
  function PrecedingDeclarationLines(w: World, lineNumbers: seq<int>): seq<Value>
  {
    if lineNumbers == [] then []
    else
      [PrecedingValue(w, lineNumbers[0])] + PrecedingDeclarationLines(w, lineNumbers[1..])
  }

  /** The preceding declaration line of `n` as a Ruby value: an integer or nil. */
  function PrecedingValue(w: World, n: int): Value
  {
    match w.precedingDeclarationLine(n)
    case None => Nil
    case Some(d) => Int(d)
  }

  /** `line_number_filter_applies?`: the two line lists intersect. */
  function LineNumberFilterApplies(w: World, lineNumbers: seq<int>, m: Metadata): bool
  {
    Intersects(RelevantLineNumbers(w.ascend(m)), PrecedingDeclarationLines(w, lineNumbers))
  }

  /** `!(a & b).empty?`. */
  function Intersects(a: seq<Value>, b: seq<Value>): bool
  {
    a != [] && (a[0] in b || Intersects(a[1..], b))
  }

  // ---------------------------------------------------------------------------
  // Aggregation: `any?` and `all?`

  /** `apply?(:any?, ...)` holds iff some clause applies, `apply?(:all?, ...)`
      iff every clause does; so an empty filter is false under `any?` and true
      under `all?`. */
  lemma {:induction false} ApplySemantics(env: Env, filters: Metadata, m: Metadata)
    ensures Apply(env, Any, filters, m) <==>
              exists i | 0 <= i < |filters| :: FilterApplies(env, filters[i].key, filters[i].val, m)
    ensures Apply(env, All, filters, m) <==>
              forall i | 0 <= i < |filters| :: FilterApplies(env, filters[i].key, filters[i].val, m)
  {
    if filters != [] {
      ApplySemantics(env, filters[1..], m);
      var rest := filters[1..];
      assert forall i | 1 <= i < |filters| :: filters[i] == rest[i - 1];
      if AnyApplies(env, rest, m) {
        var j :| 0 <= j < |rest| && FilterApplies(env, rest[j].key, rest[j].val, m);
        assert FilterApplies(env, filters[j + 1].key, filters[j + 1].val, m);
      }
      if forall i | 0 <= i < |filters| :: FilterApplies(env, filters[i].key, filters[i].val, m) {
        forall j | 0 <= j < |rest|
          ensures FilterApplies(env, rest[j].key, rest[j].val, m)
        {
          assert rest[j] == filters[j + 1];
        }
      }
    }
  }

  // ---------------------------------------------------------------------------
  // One clause against an ordinary key

  /** A clause on a key the metadata lacks fails, unless the key is one of
      the two special keys. */
  lemma AbsentKeyFails(env: Env, key: Key, value: Value, m: Metadata)
    requires key != LocationsKey && key != IdsKey
    requires !HasKey(m, key)
    ensures !FilterApplies(env, key, value, m)
  {
  }

  /** For an ordinary key whose metadata value is not an array, and a filter
      value that is neither a hash, a regexp nor a proc: the clause holds iff
      the string forms are equal. */
  lemma ScalarClause(env: Env, key: Key, value: Value, m: Metadata)
    requires key != LocationsKey && key != IdsKey
    requires !value.Hash? && !value.Pattern? && !value.Callable?
    requires Lookup(m, key).Some? && !Lookup(m, key).value.Array?
    ensures FilterApplies(env, key, value, m) <==>
              ToS(env.world, Lookup(m, key).value) == ToS(env.world, value)
  {
  }

  /** A regexp filter value: the clause is the regexp match of the metadata value. */
  lemma PatternClause(env: Env, key: Key, re: Regex, m: Metadata)
    requires key != LocationsKey && key != IdsKey
    requires Lookup(m, key).Some? && !Lookup(m, key).value.Array?
    ensures FilterApplies(env, key, Pattern(re), m) == env.world.regexMatches(Lookup(m, key).value, re)
  {
  }

  /** A proc filter value is called according to its arity: with no
      arguments, with the value and the whole metadata, or with the value
      alone. A proc is called even when the metadata value is an array. */
  lemma CallableClause(env: Env, key: Key, p: Proc, m: Metadata)
    requires key != LocationsKey && key != IdsKey
    requires HasKey(m, key)
    ensures p.arity == 0 ==> FilterApplies(env, key, Callable(p), m) == env.calls(p, [])
    ensures p.arity == 2 ==>
              FilterApplies(env, key, Callable(p), m) == env.calls(p, [Lookup(m, key).value, Hash(m)])
    ensures p.arity != 0 && p.arity != 2 ==>
              FilterApplies(env, key, Callable(p), m) == env.calls(p, [Lookup(m, key).value])
  {
  }

  // ---------------------------------------------------------------------------
  // Array-valued metadata

  lemma {:induction false} AnyValueAppliesIff(env: Env, key: Key, elems: seq<Value>, value: Value)
    ensures AnyValueApplies(env, key, elems, value) <==>
              exists i | 0 <= i < |elems| :: FilterApplies(env, key, elems[i], [Entry(key, value)])
  {
    if elems != [] {
      AnyValueAppliesIff(env, key, elems[1..], value);
      var rest := elems[1..];
      if AnyValueApplies(env, key, rest, value) {
        var j :| 0 <= j < |rest| && FilterApplies(env, key, rest[j], [Entry(key, value)]);
        assert rest[j] == elems[j + 1];
      }
      if exists i | 0 <= i < |elems| :: FilterApplies(env, key, elems[i], [Entry(key, value)]) {
        var i :| 0 <= i < |elems| && FilterApplies(env, key, elems[i], [Entry(key, value)]);
        if i > 0 {
          assert elems[i] == rest[i - 1];
        }
      }
    }
  }

  /** When the metadata value is an array and the filter value is not a proc,
      the clause holds iff some element, put in the filter value's place,
      applies to the metadata `{key => value}`. An empty array never matches. */
  lemma ArrayClause(env: Env, key: Key, value: Value, m: Metadata, elems: seq<Value>)
    requires Lookup(m, key) == Some(Array(elems))
    requires !value.Callable?
    ensures FilterApplies(env, key, value, m) <==>
              exists i | 0 <= i < |elems| :: FilterApplies(env, key, elems[i], [Entry(key, value)])
    ensures elems == [] ==> !FilterApplies(env, key, value, m)
  {
    AnyValueAppliesIff(env, key, elems, value);
  }

  // ---------------------------------------------------------------------------
  // Hash-valued filters

  /** A hash filter value against a metadata value that is not a hash fails
      rather than raising; against a hash it requires every nested clause to
      apply to that sub-hash. */
  lemma HashClause(env: Env, key: Key, nested: Metadata, m: Metadata)
    requires key != LocationsKey && key != IdsKey
    requires !(Lookup(m, key).Some? && Lookup(m, key).value.Array?)
    ensures !(Lookup(m, key).Some? && Lookup(m, key).value.Hash?) ==>
              !FilterApplies(env, key, Hash(nested), m)
    ensures Lookup(m, key).Some? && Lookup(m, key).value.Hash? ==>
              (FilterApplies(env, key, Hash(nested), m) <==>
               forall i | 0 <= i < |nested| ::
                 FilterApplies(env, nested[i].key, nested[i].val, Lookup(m, key).value.entries))
  {
    if Lookup(m, key).Some? && Lookup(m, key).value.Hash? {
      ApplySemantics(env, nested, Lookup(m, key).value.entries);
    }
  }

  // ---------------------------------------------------------------------------
  // The special key :ids

  lemma {:induction false} AnyScopedIdInIff(chain: seq<Metadata>, scopedIds: set<string>)
    ensures AnyScopedIdIn(chain, scopedIds) <==>
              exists j, id | 0 <= j < |chain| && id in scopedIds :: Lookup(chain[j], ScopedIdKey) == Some(Str(id))
  {
    if chain != [] {
      AnyScopedIdInIff(chain[1..], scopedIds);
      var rest := chain[1..];
      if AnyScopedIdIn(rest, scopedIds) {
        var j, id :| 0 <= j < |rest| && id in scopedIds && Lookup(rest[j], ScopedIdKey) == Some(Str(id));
        assert rest[j] == chain[j + 1];
      }
      if exists j, id | 0 <= j < |chain| && id in scopedIds :: Lookup(chain[j], ScopedIdKey) == Some(Str(id)) {
        var j, id :| 0 <= j < |chain| && id in scopedIds && Lookup(chain[j], ScopedIdKey) == Some(Str(id));
        if j > 0 {
          assert chain[j] == rest[j - 1];
        }
      }
    }
  }

  /** `:ids` fails when the metadata's rerun file path is not a key of the
      filter's map; otherwise it holds iff some ancestor (the metadata itself
      included) carries a scoped id in that path's set. */
  lemma IdsClause(env: Env, ids: map<string, set<string>>, m: Metadata)
    requires !(Lookup(m, IdsKey).Some? && Lookup(m, IdsKey).value.Array?)
    ensures (forall path :: Lookup(m, RerunFilePathKey) == Some(Str(path)) ==> path !in ids) ==>
              !FilterApplies(env, IdsKey, IdIndex(ids), m)
    ensures forall path :: Lookup(m, RerunFilePathKey) == Some(Str(path)) && path in ids ==>
              (FilterApplies(env, IdsKey, IdIndex(ids), m) <==>
               exists j, id | 0 <= j < |env.world.ascend(m)| && id in ids[path] ::
                 Lookup(env.world.ascend(m)[j], ScopedIdKey) == Some(Str(id)))
  {
    match Lookup(m, RerunFilePathKey)
    case Some(Str(path)) =>
      if path in ids {
        AnyScopedIdInIff(env.world.ascend(m), ids[path]);
      }
    case _ =>
  }

  // ---------------------------------------------------------------------------
  // The special key :locations

  lemma {:induction false} DeclarationLinesEmpty(lines: map<string, seq<int>>, chain: seq<Metadata>)
    ensures DeclarationLines(lines, chain) == [] <==>
              forall j | 0 <= j < |chain| :: LinesFor(lines, chain[j]) == []
  {
    if chain != [] {
      DeclarationLinesEmpty(lines, chain[1..]);
      assert forall j | 1 <= j < |chain| :: chain[j] == chain[1..][j - 1];
    }
  }

  lemma {:induction false} RelevantLineNumbersAt(chain: seq<Metadata>)
    ensures |RelevantLineNumbers(chain)| == |chain|
    ensures forall j | 0 <= j < |chain| :: RelevantLineNumbers(chain)[j] == ValueAt(chain[j], LineNumberKey)
  {
    if chain != [] {
      RelevantLineNumbersAt(chain[1..]);
    }
  }

  lemma {:induction false} PrecedingDeclarationLinesAt(w: World, lineNumbers: seq<int>)
    ensures |PrecedingDeclarationLines(w, lineNumbers)| == |lineNumbers|
    ensures forall j | 0 <= j < |lineNumbers| ::
              PrecedingDeclarationLines(w, lineNumbers)[j] == PrecedingValue(w, lineNumbers[j])
  {
    if lineNumbers != [] {
      PrecedingDeclarationLinesAt(w, lineNumbers[1..]);
    }
  }

  lemma {:induction false} IntersectsIff(a: seq<Value>, b: seq<Value>)
    ensures Intersects(a, b) <==> exists i, j | 0 <= i < |a| && 0 <= j < |b| :: a[i] == b[j]
  {
    if a != [] {
      IntersectsIff(a[1..], b);
      if Intersects(a[1..], b) {
        var i, j :| 0 <= i < |a[1..]| && 0 <= j < |b| && a[1..][i] == b[j];
        assert a[i + 1] == b[j];
      }
      if exists i, j | 0 <= i < |a| && 0 <= j < |b| :: a[i] == b[j] {
        var i, j :| 0 <= i < |a| && 0 <= j < |b| && a[i] == b[j];
        if i > 0 {
          assert a[1..][i - 1] == b[j];
        }
      }
    }
  }

  /** `:locations` holds vacuously when no ancestor's file has requested
      lines; otherwise it holds iff some ancestor's `:line_number` equals the
      preceding declaration line of some requested line, as Ruby values: a
      missing or nil `:line_number` equals a nil preceding line. */
  lemma LocationsClause(env: Env, lines: map<string, seq<int>>, m: Metadata)
    requires !(Lookup(m, LocationsKey).Some? && Lookup(m, LocationsKey).value.Array?)
    ensures var chain := env.world.ascend(m);
            var requested := DeclarationLines(lines, chain);
            (FilterApplies(env, LocationsKey, LineIndex(lines), m) <==>
              (forall j | 0 <= j < |chain| :: LinesFor(lines, chain[j]) == []) ||
              exists a, b | 0 <= a < |chain| && 0 <= b < |requested| ::
                ValueAt(chain[a], LineNumberKey) == PrecedingValue(env.world, requested[b]))
  {
    var chain := env.world.ascend(m);
    var requested := DeclarationLines(lines, chain);
    DeclarationLinesEmpty(lines, chain);
    RelevantLineNumbersAt(chain);
    PrecedingDeclarationLinesAt(env.world, requested);
    IntersectsIff(RelevantLineNumbers(chain), PrecedingDeclarationLines(env.world, requested));
  }

  // ---------------------------------------------------------------------------
  // What a clause depends on

  /** A clause on an ordinary key reads only the metadata's value at that key,
      unless its filter value is a two-argument proc (which is handed the
      whole metadata). */
  lemma ClauseReadsOwnKey(env: Env, key: Key, value: Value, m1: Metadata, m2: Metadata)
    requires key != LocationsKey && key != IdsKey
    requires !(value.Callable? && value.proc.arity == 2)
    requires Lookup(m1, key) == Lookup(m2, key)
    ensures FilterApplies(env, key, value, m1) == FilterApplies(env, key, value, m2)
  {
  }

  /** No proc anywhere inside the value. */
  predicate ProcFree(v: Value)
  {
    match v
    case Callable(_) => false
    case Hash(es) => forall i | 0 <= i < |es| :: ProcFree(es[i].val)
    case Array(xs) => forall i | 0 <= i < |xs| :: ProcFree(xs[i])
    case _ => true
  }

  predicate ProcFreeHash(m: Metadata)
  {
    forall i | 0 <= i < |m| :: ProcFree(m[i].val)
  }

  lemma ProcFreeLookup(m: Metadata, key: Key)
    requires ProcFreeHash(m)
    ensures Lookup(m, key).Some? ==> ProcFree(Lookup(m, key).value)
  {
    if Lookup(m, key).Some? {
      var i :| 0 <= i < |m| && m[i] == Entry(key, Lookup(m, key).value);
    }
  }

  /** Without procs in the filter value or in the metadata, a clause does not
      depend on what user procs would return. */
  lemma {:induction false} FilterAppliesIgnoresCalls(w: World, c1: Calls, c2: Calls, key: Key, value: Value, m: Metadata)
    requires ProcFree(value) && ProcFreeHash(m)
    ensures FilterApplies(Env(w, c1), key, value, m) == FilterApplies(Env(w, c2), key, value, m)
    decreases Size(value) + SizeAt(m, key), 1
  {
    var mv := Lookup(m, key);
    ProcFreeLookup(m, key);
    if mv.Some? && mv.value.Array? && !value.Callable? {
      AnyValueIgnoresCalls(w, c1, c2, key, mv.value.elems, value);
    } else if key == LocationsKey || key == IdsKey {
    } else if value.Hash? {
      if mv.Some? && mv.value.Hash? {
        AllApplyIgnoresCalls(w, c1, c2, value.entries, mv.value.entries);
      }
    }
  }

  lemma {:induction false} AllApplyIgnoresCalls(w: World, c1: Calls, c2: Calls, filters: Metadata, m: Metadata)
    requires ProcFreeHash(filters) && ProcFreeHash(m)
    ensures AllApply(Env(w, c1), filters, m) == AllApply(Env(w, c2), filters, m)
    decreases EntriesSize(filters) + EntriesSize(m), 2
  {
    if filters != [] {
      SizeAtBounded(m, filters[0].key);
      FilterAppliesIgnoresCalls(w, c1, c2, filters[0].key, filters[0].val, m);
      AllApplyIgnoresCalls(w, c1, c2, filters[1..], m);
    }
  }

  lemma {:induction false} AnyValueIgnoresCalls(w: World, c1: Calls, c2: Calls, key: Key, elems: seq<Value>, value: Value)
    requires ProcFree(value) && forall i | 0 <= i < |elems| :: ProcFree(elems[i])
    ensures AnyValueApplies(Env(w, c1), key, elems, value) == AnyValueApplies(Env(w, c2), key, elems, value)
    decreases ValuesSize(elems) + Size(value), 2
  {
    if elems != [] {
      FilterAppliesIgnoresCalls(w, c1, c2, key, elems[0], [Entry(key, value)]);
      AnyValueIgnoresCalls(w, c1, c2, key, elems[1..], value);
    }
  }

  // ---------------------------------------------------------------------------
  // Examples

  /** String forms let a filter given as text match a number: `"15"` matches
      the metadata value `15`. */
  lemma StringFormMatchesNumber(env: Env)
    ensures FilterApplies(env, LineNumberKey, Str("15"), [Entry(LineNumberKey, Int(15))])
    ensures !FilterApplies(env, LineNumberKey, Str("16"), [Entry(LineNumberKey, Int(15))])
  {
    var m := [Entry(LineNumberKey, Int(15))];
    assert Lookup(m, LineNumberKey) == Some(Int(15));
    assert NatToString(15) == NatToString(1) + [DigitChar(5)] == "15";
    ScalarClause(env, LineNumberKey, Str("15"), m);
    ScalarClause(env, LineNumberKey, Str("16"), m);
  }

  /** A line inside a group selects the group: line 5 of the file resolves to
      the declaration at line 3, which is an ancestor's `:line_number`. */
  lemma LineInsideGroupSelectsGroup(env: Env, m: Metadata, group: Metadata)
    requires env.world.ascend(m) == [m, group]
    requires Lookup(m, LocationsKey) == None
    requires Lookup(m, AbsoluteFilePathKey) == Some(Str("/spec/foo_spec.rb"))
    requires Lookup(m, LineNumberKey) == Some(Int(18))
    requires Lookup(group, AbsoluteFilePathKey) == Some(Str("/spec/foo_spec.rb"))
    requires Lookup(group, LineNumberKey) == Some(Int(3))
    requires env.world.precedingDeclarationLine(5) == Some(3)
    ensures FilterApplies(env, LocationsKey, LineIndex(map["/spec/foo_spec.rb" := [5, 20]]), m)
  {
    var lines := map["/spec/foo_spec.rb" := [5, 20]];
    var chain := [m, group];
    LocationsClause(env, lines, m);
    assert LinesFor(lines, m) == [5, 20];
    assert DeclarationLines(lines, chain) == [5, 20] + DeclarationLines(lines, [group]);
    assert DeclarationLines(lines, chain)[0] == 5;
    assert ValueAt(chain[1], LineNumberKey) == PrecedingValue(env.world, DeclarationLines(lines, chain)[0]);
  }

  /** A stored nil `:line_number` reads like a missing one: an ancestor chain
      whose only line is nil matches a requested line whose preceding
      declaration line is nil, since `[nil] & [nil]` is not empty. */
  lemma NilLineMatchesNilDeclaration(env: Env)
    requires var m := [Entry(AbsoluteFilePathKey, Str("/f")), Entry(LineNumberKey, Nil)];
             env.world.ascend(m) == [m]
    requires env.world.ascend([Entry(AbsoluteFilePathKey, Str("/f"))]) == [[Entry(AbsoluteFilePathKey, Str("/f"))]]
    requires env.world.precedingDeclarationLine(5) == None
    ensures FilterApplies(env, LocationsKey, LineIndex(map["/f" := [5]]),
                          [Entry(AbsoluteFilePathKey, Str("/f")), Entry(LineNumberKey, Nil)])
    ensures FilterApplies(env, LocationsKey, LineIndex(map["/f" := [5]]),
                          [Entry(AbsoluteFilePathKey, Str("/f"))])
  {
    var m' := [Entry(AbsoluteFilePathKey, Str("/f"))];
    assert Lookup(m', LocationsKey) == None;
    assert LinesFor(map["/f" := [5]], m') == [5];
    assert DeclarationLines(map["/f" := [5]], [m']) == [5];
    assert ValueAt(m', LineNumberKey) == Nil;
    LocationsClause(env, map["/f" := [5]], m');
    assert ValueAt([m'][0], LineNumberKey) == PrecedingValue(env.world, DeclarationLines(map["/f" := [5]], [m'])[0]);
    var m := [Entry(AbsoluteFilePathKey, Str("/f")), Entry(LineNumberKey, Nil)];
    var lines := map["/f" := [5]];
    assert Lookup(m, LocationsKey) == None;
    assert ValueAt(m, AbsoluteFilePathKey) == Str("/f");
    assert LinesFor(lines, m) == [5];
    assert DeclarationLines(lines, [m]) == [5];
    assert ValueAt(m, LineNumberKey) == Nil;
    LocationsClause(env, lines, m);
    assert ValueAt([m][0], LineNumberKey) == PrecedingValue(env.world, DeclarationLines(lines, [m])[0]);
  }
}
