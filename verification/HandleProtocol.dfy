/**
 Many threads inserting into, reading and removing from one `HandleMap`
 (kernel_core/src/collections/handle_map.rs and handle_allocator.rs), one atomic access at a time.
 */
module HandleProtocol {
  import opened Common
  import opened HandleBits
  import opened HandleTree

  /** Where a thread is; each step below performs the next atomic access. */
  datatype Pc<+V> =
    | Idle
    // insert: scan the words, claim a bit, walk to the leaf, put the value
    | Scan(v: V, word: nat)
    | Claim(v: V, word: nat, current: Word)
    | Walk(v: V, h: nat, level: nat, table: nat)
    | Create(v: V, h: nat, level: nat, table: nat)
    | Put(v: V, h: nat, table: nat)
    // remove: walk to the leaf, take the value, clear the bit
    | Find(v: V, h: nat, level: nat, table: nat)
    | Take(v: V, h: nat, table: nat)
    | FreeLoad(h: nat)
    | FreeTry(h: nat, current: Word)
    // get: walk to the leaf, read the value, return it
    | Look(h: nat, level: nat, table: nat)
    | Peek(h: nat, table: nat)
    | Got(h: nat, found: Option<V>)
    // the assertion that a fresh handle's entry is empty has failed
    | Crashed
  {
    /** The handle a thread inserts or removes. */
    function Held(): Option<nat> {
      match this
      case Walk(_, h, _, _) => Some(h)
      case Create(_, h, _, _) => Some(h)
      case Put(_, h, _) => Some(h)
      case Find(_, h, _, _) => Some(h)
      case Take(_, h, _) => Some(h)
      case FreeLoad(h) => Some(h)
      case FreeTry(h, _) => Some(h)
      case _ => None
    }

    /** The value a remover will find. */
    function Wanted(): Option<V> { if Find? || Take? then Some(v) else None }
  }

  /**
   The shared words and tables, and the threads. `owned` are the handles returned by an insert and not
   yet passed to a remove, with what was inserted; `owner` is the thread at work on a handle; `places` says
   where a table was hung; `issued` are all handles returned by an insert, with what was inserted. These four
   only record history.
   */
  datatype State<V> = State(d: nat, max: nat, root: nat, words: seq<Word>, tables: Tables<V>, places: map<nat, Place>,
                            pcs: seq<Pc<V>>, owned: map<nat, V>, owner: map<nat, nat>, issued: seq<(nat, V)>)

  /** What a thread does next: start an operation, or take its next step. */
  datatype Move<+V> = Insert(value: V) | Remove(handle: nat) | Get(handle: nat) | Go(newTable: nat, spurious: bool)

  /** A client removes only handles it got and has not removed; a new table is a new object. */
  predicate Enabled<V>(s: State<V>, i: nat, move: Move<V>) {
    && i < |s.pcs|
    && match move
       case Insert(_) => s.pcs[i].Idle?
       case Remove(h) => s.pcs[i].Idle? && h in s.owned
       case Get(h) => s.pcs[i].Idle? && h < Pow256(s.d)
       case Go(c, _) => !s.pcs[i].Idle? && !s.pcs[i].Crashed? && c !in s.tables
  }

  /** The inserter of `h` has reached the table at `level`. */
  function Inserting<V>(s: State<V>, v: V, h: nat, level: nat, table: nat): Pc<V> {
    if level + 1 < s.d then Walk(v, h, level, table) else Put(v, h, table)
  }

  function Removing<V>(s: State<V>, v: V, h: nat, level: nat, table: nat): Pc<V> {
    if level + 1 < s.d then Find(v, h, level, table) else Take(v, h, table)
  }

  function Getting<V>(s: State<V>, h: nat, level: nat, table: nat): Pc<V> {
    if level + 1 < s.d then Look(h, level, table) else Peek(h, table)
  }

  function At<V>(s: State<V>, i: nat, pc: Pc<V>): State<V>
    requires i < |s.pcs|
  {
    s.(pcs := s.pcs[i := pc])
  }

  /** The entry a thread accesses; what is not there reads as empty. */
  function Entry<V>(s: State<V>, h: nat, level: nat, table: nat): Slot<V>
    requires level < s.d
  {
    if table in s.tables && |s.tables[table]| == 256 then s.tables[table][Index(s.d, h, level)] else Empty
  }

  function Seen<V>(slot: Slot<V>): Option<V> { if slot.Value? then Some(slot.value) else None }

  predicate Present<V>(s: State<V>, table: nat) { table in s.tables && |s.tables[table]| == 256 }

  /** One examination of a loaded word and the compare-and-swap, which may fail for no reason. */
  function ClaimStep<V>(s: State<V>, i: nat, v: V, word: nat, current: Word, spurious: bool): State<V>
    requires i < |s.pcs|
  {
    var zero := FirstZero(current);
    var h := word * 64 + zero;
    if zero >= 64 || h >= s.max || word >= |s.words| then At(s, i, Scan(v, word + 1))
    else if spurious || s.words[word] != current || |current| != 64 then At(s, i, Claim(v, word, s.words[word]))
    else At(s.(words := SetBit(s.words, h, true), owner := s.owner[h := i]), i, Inserting(s, v, h, 0, s.root))
  }

  function CreateStep<V>(s: State<V>, i: nat, v: V, h: nat, level: nat, table: nat, c: nat): State<V>
    requires i < |s.pcs|
  {
    if level + 1 >= s.d || !Present(s, table) || c == table then At(s, i, Crashed)
    else
      match s.tables[table][Index(s.d, h, level)]
      case Child(t) => At(s, i, Inserting(s, v, h, level + 1, t))
      case Value(_) => At(s, i, Crashed)
      case Empty =>
        var grown := Grown(s.tables, table, Index(s.d, h, level), c);
        var place := if table in s.places then ChildPlace(s.places[table], Index(s.d, h, level)) else Place(0, 0);
        At(s.(tables := grown, places := s.places[c := place]), i, Inserting(s, v, h, level + 1, c))
  }

  function PutStep<V>(s: State<V>, i: nat, v: V, h: nat, table: nat): State<V>
    requires i < |s.pcs|
  {
    if s.d == 0 || !Present(s, table) then At(s, i, Crashed)
    else
      var at := Index(s.d, h, s.d - 1);
      var next := s.(tables := Written(s.tables, table, at, Value(v)));
      if s.tables[table][at].Empty? then
        At(next.(owned := s.owned[h := v], owner := s.owner - {h}, issued := s.issued + [(h, v)]), i, Idle)
      else At(next, i, Crashed)
  }

  function TakeStep<V>(s: State<V>, i: nat, h: nat, table: nat): State<V>
    requires i < |s.pcs|
  {
    if s.d == 0 || !Present(s, table) then At(s, i, Crashed)
    else At(s.(tables := Written(s.tables, table, Index(s.d, h, s.d - 1), Empty)), i, FreeLoad(h))
  }

  function FreeStep<V>(s: State<V>, i: nat, h: nat, current: Word, spurious: bool): State<V>
    requires i < |s.pcs|
  {
    if h / 64 >= |s.words| || |s.words[h / 64]| != 64 || |current| != 64 || !current[h % 64] then At(s, i, Idle)
    else if spurious || s.words[h / 64] != current then At(s, i, FreeTry(h, s.words[h / 64]))
    else At(s.(words := SetBit(s.words, h, false), owner := s.owner - {h}), i, Idle)
  }

  function GoStep<V>(s: State<V>, i: nat, c: nat, spurious: bool): State<V>
    requires i < |s.pcs|
  {
    match s.pcs[i]
    case Idle => s
    case Crashed => s
    case Scan(v, word) => At(s, i, if word < |s.words| then Claim(v, word, s.words[word]) else Idle)
    case Claim(v, word, current) => ClaimStep(s, i, v, word, current, spurious)
    case Walk(v, h, level, table) =>
      if level >= s.d then At(s, i, Crashed) else
        (match Entry(s, h, level, table)
         case Child(t) => At(s, i, Inserting(s, v, h, level + 1, t))
         case _ => At(s, i, Create(v, h, level, table)))
    case Create(v, h, level, table) => CreateStep(s, i, v, h, level, table, c)
    case Put(v, h, table) => PutStep(s, i, v, h, table)
    case Find(v, h, level, table) =>
      if level >= s.d then At(s, i, Idle) else
        (match Entry(s, h, level, table)
         case Child(t) => At(s, i, Removing(s, v, h, level + 1, t))
         case _ => At(s, i, Idle))
    case Take(_, h, table) => TakeStep(s, i, h, table)
    case FreeLoad(h) =>
      At(s, i, if h < s.max && h / 64 < |s.words| then FreeTry(h, s.words[h / 64]) else Idle)
    case FreeTry(h, current) => FreeStep(s, i, h, current, spurious)
    case Look(h, level, table) =>
      if level >= s.d then At(s, i, Idle) else
        (match Entry(s, h, level, table)
         case Child(t) => At(s, i, Getting(s, h, level + 1, t))
         case _ => At(s, i, Got(h, None)))
    case Peek(h, table) => At(s, i, Got(h, if s.d == 0 then None else Seen(Entry(s, h, s.d - 1, table))))
    case Got(_, _) => At(s, i, Idle)
  }

  function Apply<V>(s: State<V>, i: nat, move: Move<V>): State<V>
    requires Enabled(s, i, move)
  {
    match move
    case Insert(v) => At(s, i, Scan(v, 0))
    case Remove(h) =>
      At(s.(owned := s.owned - {h}, owner := s.owner[h := i]), i, Removing(s, s.owned[h], h, 0, s.root))
    case Get(h) => At(s, i, Getting(s, h, 0, s.root))
    case Go(c, spurious) => GoStep(s, i, c, spurious)
  }

  /** Runs of any length and interleaving. */
  ghost predicate Runs<V>(s: State<V>, moves: seq<(nat, Move<V>)>, s': State<V>)
    decreases |moves|
  {
    if moves == [] then s == s'
    else Enabled(s, moves[0].0, moves[0].1) && Runs(Apply(s, moves[0].0, moves[0].1), moves[1..], s')
  }

  /** An empty map for `n` threads. */
  ghost predicate Initial<V>(s: State<V>) {
    && s.d > 0 && 0 < s.max <= Pow256(s.d) && Shaped(s.words, s.max)
    && (forall w, b :: 0 <= w < |s.words| && 0 <= b < |s.words[w]| ==> !s.words[w][b])
    && s.tables == map[s.root := NewTable()] && s.places == map[s.root := Place(0, 0)]
    && (forall i :: 0 <= i < |s.pcs| ==> s.pcs[i].Idle?)
    && s.owned == map[] && s.owner == map[] && s.issued == []
  }
}
