/** The growable field buffer of the bridge, on a C heap where allocations may fail. */
module ParsedBuffer {
  import opened Wrappers
  import opened Trees
  import opened Keys
  import opened Flatten
  import opened Walks

  // ---------- The C heap ----------

  /** What an allocation is for; the adversary may let any of them fail. */
  datatype Purpose = Block | ParserName | Growth | GrowthMessage | Name | Content | Message

  const NULL: nat := 0

  /** malloc, realloc and free. Block identities are never reused, so a block freed twice would show. */
  class Heap {
    const plan: (Purpose, nat) -> bool
    var calls: nat
    var next: nat
    var live: map<nat, string>
    /** How many messages about a failure were lost. */
    ghost var mute: nat

    constructor (plan: (Purpose, nat) -> bool)
      ensures Sound() && live == map[] && mute == 0 && this.plan == plan
    {
      this.plan, calls, next, live, mute := plan, 0, NULL + 1, map[], 0;
    }

    ghost predicate Sound()
      reads this
    {
      next > NULL && forall p :: p in live ==> NULL < p < next
    }

    /** Whether the next allocation for a purpose will succeed. */
    predicate Grants(purpose: Purpose)
      reads this
    {
      plan(purpose, calls)
    }

    /** No allocation fails. */
    ghost predicate Generous() {
      forall purpose, n :: plan(purpose, n)
    }

    ghost predicate Never(purpose: Purpose) {
      forall n: nat :: !plan(purpose, n)
    }

    ghost predicate Always(purpose: Purpose) {
      forall n: nat :: plan(purpose, n)
    }

    /** The array can always grow, and no other message is ever stored. */
    ghost predicate Silent() {
      Always(Growth) && Never(Message)
    }

    /** What the plan never or always does. */
    ghost function Habit(): Nature {
      Nature(Generous() || Silent(), Always(Message), Never(Name))
    }

    /** The heap never refuses a growth and then the message that says so. */
    ghost predicate TellsOfGrowth() {
      forall n: nat :: plan(Growth, n) || plan(GrowthMessage, n + 1)
    }

    method Malloc(purpose: Purpose, content: string) returns (p: nat)
      requires Sound()
      modifies this
      ensures Sound() && calls == old(calls) + 1
      ensures if old(Grants(purpose)) then p == old(next) && live == old(live)[p := content]
              else p == NULL && live == old(live)
      ensures p != NULL ==> p !in old(live)
      ensures mute == if purpose == Message && p == NULL then old(mute) + 1 else old(mute)
    {
      if plan(purpose, calls) {
        p, next, live := next, next + 1, live[next := content];
      } else {
        p := NULL;
        if purpose == Message { mute := mute + 1; }
      }
      calls := calls + 1;
    }

    /** On failure the old block stays as it was; on success it is gone. */
    method Realloc(q: nat) returns (p: nat)
      requires Sound() && (q != NULL ==> q in live)
      modifies this`calls, this`next, this`live
      ensures Sound() && calls == old(calls) + 1
      ensures if old(Grants(Growth)) then p == old(next) && live == (old(live) - {q})[p := ""]
              else p == NULL && live == old(live)
      ensures p != NULL ==> p !in old(live)
    {
      if plan(Growth, calls) {
        p, next, live := next, next + 1, (live - {q})[next := ""];
      } else {
        p := NULL;
      }
      calls := calls + 1;
    }

    /** Only null and live blocks may be freed. */
    method Free(p: nat)
      requires Sound() && (p != NULL ==> p in live)
      modifies this`live
      ensures Sound() && live == old(live) - {p}
    {
      live := live - {p};
    }
  }

  // ---------- The ledger ----------

  datatype ParsedField = ParsedField(name: nat, value: nat, binary: bool, length: nat)

  const NO_FIELD := ParsedField(NULL, NULL, false, 0)

  /** What a live block is for. */
  datatype Role = Self | Array | Protocol | Error | NameOf(i: nat) | ValueOf(i: nat)

  const FIRST_CAPACITY: nat := 16

  /** The capacity after a number of growths. */
  function Capacity(growths: nat): nat {
    if growths == 0 then 0 else if growths == 1 then FIRST_CAPACITY else 2 * Capacity(growths - 1)
  }

  /** The field a slot holds, as the worker reads it off the heap: a string, or as many bytes as length says. */
  function FieldAt(live: map<nat, string>, f: ParsedField): Stored {
    var name := if f.name in live then live[f.name] else "";
    var value := if f.value in live then live[f.value] else "";
    Stored(name, if !f.binary then Text(value) else Binary(if f.length <= |value| then value[..f.length] else value))
  }

  function FieldsAt(live: map<nat, string>, fs: seq<ParsedField>): (r: seq<Stored>)
    ensures |r| == |fs|
    ensures forall i :: 0 <= i < |fs| ==> r[i] == FieldAt(live, fs[i])
  {
    seq(|fs|, i requires 0 <= i < |fs| => FieldAt(live, fs[i]))
  }

  /** The pointers of a buffer: its own block, its array, its two messages, and its fields. */
  datatype Pointers = Pointers(self: nat, fieldArray: nat, protocol: nat, error: nat, filled: seq<ParsedField>)
  {
    function Of(r: Role): nat {
      match r
      case Self => self
      case Array => fieldArray
      case Protocol => protocol
      case Error => error
      case NameOf(i) => if i < |filled| then filled[i].name else NULL
      case ValueOf(i) => if i < |filled| then filled[i].value else NULL
    }
  }

  /** Every block of the ledger is what its role points to, and every pointer is in the ledger for its role. */
  ghost predicate Ledgered(ledger: map<nat, Role>, ps: Pointers) {
    && (forall p :: p in ledger ==> p != NULL && ps.Of(ledger[p]) == p)
    && (forall r: Role :: ps.Of(r) != NULL ==> ps.Of(r) in ledger && ledger[ps.Of(r)] == r)
  }

  /** The live blocks are those of others and one for each pointer of the buffer. */
  ghost predicate Books(live: map<nat, string>, others: set<nat>, ledger: map<nat, Role>, ps: Pointers) {
    live.Keys == others + ledger.Keys && others !! ledger.Keys && Ledgered(ledger, ps)
  }

  lemma LedgerMovesArray(ledger: map<nat, Role>, ps: Pointers, p: nat)
    requires Ledgered(ledger, ps) && p != NULL && p !in ledger
    ensures Ledgered((ledger - {ps.fieldArray})[p := Array], ps.(fieldArray := p))
  {
    var ps' := ps.(fieldArray := p);
    forall r: Role | r != Array ensures ps'.Of(r) == ps.Of(r) { }
    if ps.fieldArray != NULL { assert ps.Of(Array) in ledger; }
  }

  lemma LedgerAddsError(ledger: map<nat, Role>, ps: Pointers, p: nat)
    requires Ledgered(ledger, ps) && ps.error == NULL && p != NULL && p !in ledger
    ensures Ledgered(ledger[p := Error], ps.(error := p))
  {
    var ps' := ps.(error := p);
    forall r: Role | r != Error ensures ps'.Of(r) == ps.Of(r) { }
    assert ps.Of(Error) == NULL;
  }

  lemma LedgerAddsField(ledger: map<nat, Role>, ps: Pointers, f: ParsedField)
    requires Ledgered(ledger, ps) && f.name != NULL && f.value != NULL && f.name != f.value
    requires f.name !in ledger && f.value !in ledger
    ensures Ledgered(ledger[f.name := NameOf(|ps.filled|)][f.value := ValueOf(|ps.filled|)],
      ps.(filled := ps.filled + [f]))
  {
    var n := |ps.filled|;
    var ps' := ps.(filled := ps.filled + [f]);
    forall r: Role | r != NameOf(n) && r != ValueOf(n) ensures ps'.Of(r) == ps.Of(r) { }
    assert ps.Of(NameOf(n)) == NULL && ps.Of(ValueOf(n)) == NULL;
  }

  /** A field's blocks are live, and they are not the array. */
  lemma FieldBlocks(live: map<nat, string>, others: set<nat>, ledger: map<nat, Role>, ps: Pointers, i: nat)
    requires Books(live, others, ledger, ps) && i < |ps.filled|
    requires ps.filled[i].name != NULL && ps.filled[i].value != NULL
    ensures ps.filled[i].name in live && ps.filled[i].value in live
    ensures ps.filled[i].name != ps.fieldArray && ps.filled[i].value != ps.fieldArray
  {
    assert ps.Of(NameOf(i)) == ps.filled[i].name && ps.Of(ValueOf(i)) == ps.filled[i].value;
    assert ps.Of(Array) == ps.fieldArray;
  }

  lemma FieldsKept(live: map<nat, string>, live': map<nat, string>, others: set<nat>, ledger: map<nat, Role>,
      ps: Pointers)
    requires Books(live, others, ledger, ps) && forall f :: f in ps.filled ==> f.name != NULL && f.value != NULL
    requires forall p :: p in live && p != ps.fieldArray ==> p in live' && live'[p] == live[p]
    ensures FieldsAt(live', ps.filled) == FieldsAt(live, ps.filled)
  {
    forall i | 0 <= i < |ps.filled| ensures FieldAt(live', ps.filled[i]) == FieldAt(live, ps.filled[i]) {
      FieldBlocks(live, others, ledger, ps, i);
    }
  }

  /** Moving the array to a new block: the books still balance and the fields are what they were. */
  lemma BooksMoveArray(live: map<nat, string>, live': map<nat, string>, others: set<nat>, ledger: map<nat, Role>,
      ps: Pointers, p: nat)
    requires Books(live, others, ledger, ps) && forall f :: f in ps.filled ==> f.name != NULL && f.value != NULL
    requires p != NULL && p !in live && NULL !in live && live' == (live - {ps.fieldArray})[p := ""]
    ensures Books(live', others, (ledger - {ps.fieldArray})[p := Array], ps.(fieldArray := p))
    ensures FieldsAt(live', ps.filled) == FieldsAt(live, ps.filled)
  {
    LedgerMovesArray(ledger, ps, p);
    FieldsKept(live, live', others, ledger, ps);
    if ps.fieldArray != NULL { assert ps.Of(Array) in ledger; }
    var ledger' := (ledger - {ps.fieldArray})[p := Array];
    assert ledger'.Keys == ledger.Keys - {ps.fieldArray} + {p};
    assert live'.Keys == live.Keys - {ps.fieldArray} + {p};
  }

  lemma BooksAddError(live: map<nat, string>, live': map<nat, string>, others: set<nat>, ledger: map<nat, Role>,
      ps: Pointers, p: nat, text: string)
    requires Books(live, others, ledger, ps) && forall f :: f in ps.filled ==> f.name != NULL && f.value != NULL
    requires ps.error == NULL && p != NULL && p !in live && live' == live[p := text]
    ensures Books(live', others, ledger[p := Error], ps.(error := p))
    ensures FieldsAt(live', ps.filled) == FieldsAt(live, ps.filled)
  {
    LedgerAddsError(ledger, ps, p);
    FieldsKept(live, live', others, ledger, ps);
    assert live'.Keys == live.Keys + {p} && ledger[p := Error].Keys == ledger.Keys + {p};
  }

  lemma BooksAddField(live: map<nat, string>, live': map<nat, string>, others: set<nat>, ledger: map<nat, Role>,
      ps: Pointers, f: ParsedField)
    requires Books(live, others, ledger, ps) && forall g :: g in ps.filled ==> g.name != NULL && g.value != NULL
    requires f.name != NULL && f.value != NULL && f.name != f.value && f.name !in live && f.value !in live
    requires live'.Keys == live.Keys + {f.name, f.value} && forall p :: p in live ==> live'[p] == live[p]
    ensures Books(live', others, ledger[f.name := NameOf(|ps.filled|)][f.value := ValueOf(|ps.filled|)],
                  ps.(filled := ps.filled + [f]))
    ensures FieldsAt(live', ps.filled + [f]) == FieldsAt(live, ps.filled) + [FieldAt(live', f)]
  {
    LedgerAddsField(ledger, ps, f);
    FieldsKept(live, live', others, ledger, ps);
    var ledger' := ledger[f.name := NameOf(|ps.filled|)][f.value := ValueOf(|ps.filled|)];
    assert ledger'.Keys == ledger.Keys + {f.name, f.value};
  }

  /** A live block that no pointer leads to: no ledger can balance the books. */
  lemma BlockLost(live: map<nat, string>, live': map<nat, string>, others: set<nat>, ledger: map<nat, Role>,
      ps: Pointers, p: nat)
    requires Books(live, others, ledger, ps) && p != NULL && p !in live && p in live'
    ensures forall l :: !Books(live', others, l, ps)
  {
  }

  /** Nor when a field has been dropped whose blocks are still live. */
  lemma FieldDropped(live: map<nat, string>, live': map<nat, string>, others: set<nat>, ledger: map<nat, Role>,
      ps: Pointers, ps': Pointers)
    requires Books(live, others, ledger, ps) && live.Keys <= live'.Keys && |ps.filled| > 0
    requires ps' == ps.(error := ps'.error, filled := ps.filled[..|ps.filled| - 1])
    requires ps.filled[|ps.filled| - 1].name != NULL && ps'.error !in live && ps.error == NULL
    ensures forall l :: !Books(live', others, l, ps')
  {
    var n := |ps.filled| - 1;
    var p := ps.Of(NameOf(n));
    assert p in ledger && ledger[p] == NameOf(n);
    forall r: Role ensures ps'.Of(r) != p {
      assert r == Error || r == NameOf(n) || ps'.Of(r) == NULL || ps'.Of(r) == ps.Of(r);
      assert ps.Of(r) == p ==> ledger[p] == r;
    }
    forall l ensures !Books(live', others, l, ps') {
      if p in l { assert ps'.Of(l[p]) != p; }
    }
  }

  /** A message written over: its block is live with nothing to refer to it, and all else is accounted for. */
  lemma ErrorLost(live: map<nat, string>, live': map<nat, string>, others: set<nat>, ledger: map<nat, Role>,
      ps: Pointers, p: nat, text: string)
    requires Books(live, others, ledger, ps) && forall f :: f in ps.filled ==> f.name != NULL && f.value != NULL
    requires ps.error != NULL && p !in live && live' == if p == NULL then live else live[p := text]
    ensures var ledger' := ledger - {ps.error} + if p == NULL then map[] else map[p := Error];
      Books(live', others + {ps.error}, ledger', ps.(error := p))
    ensures FieldsAt(live', ps.filled) == FieldsAt(live, ps.filled)
    ensures forall l :: !Books(live', others, l, ps.(error := p))
  {
    var ps', q := ps.(error := p), ps.error;
    assert ps.Of(Error) == q && ledger[q] == Error;
    forall r: Role | r != Error ensures ps'.Of(r) == ps.Of(r) && ps.Of(r) != q { }
    FieldsKept(live, live', others, ledger, ps);
    var ledger' := ledger - {q} + if p == NULL then map[] else map[p := Error];
    assert ledger'.Keys == ledger.Keys - {q} + if p == NULL then {} else {p};
    assert live'.Keys == live.Keys + if p == NULL then {} else {p};
    forall l ensures !Books(live', others, l, ps') {
      if q in l { assert ps'.Of(l[q]) != q; }
    }
  }

  /** What a slot whose two copies were made reads back as. */
  lemma FieldReads(live: map<nat, string>, f: ParsedField, name: string, content: string)
    requires f.name in live && live[f.name] == name && f.value in live && live[f.value] == content
    requires f.binary ==> f.length == |content|
    ensures FieldAt(live, f) == Stored(name, if f.binary then Binary(content) else Text(content))
  {
    assert content[..|content|] == content;
  }

  // ---------- What is left while it is freed ----------

  /** Whether the blocks of a role have been freed when the first n fields have. */
  predicate FreedBefore(r: Role, n: nat) {
    match r
    case NameOf(i) => i < n
    case ValueOf(i) => i < n
    case _ => false
  }

  /** What is live once the first n fields have been freed. */
  ghost predicate Left(live: set<nat>, others: set<nat>, ledger: map<nat, Role>, n: nat) {
    forall p :: p in live <==> p in others || (p in ledger && !FreedBefore(ledger[p], n))
  }

  /** The next field's blocks are still live, and freeing them moves on. */
  lemma NextField(live: set<nat>, others: set<nat>, ledger: map<nat, Role>, ps: Pointers, i: nat)
    requires Ledgered(ledger, ps) && others !! ledger.Keys && Left(live, others, ledger, i)
    requires i < |ps.filled| && ps.filled[i].name != NULL && ps.filled[i].value != NULL
    ensures ps.filled[i].name in live && ps.filled[i].value in live && ps.filled[i].name != ps.filled[i].value
    ensures Left(live - {ps.filled[i].name} - {ps.filled[i].value}, others, ledger, i + 1)
  {
    assert ps.Of(NameOf(i)) == ps.filled[i].name && ps.Of(ValueOf(i)) == ps.filled[i].value;
  }

  /** With the fields gone, four pointers lead to all that is left. */
  lemma LastBlocks(live: set<nat>, others: set<nat>, ledger: map<nat, Role>, ps: Pointers)
    requires Ledgered(ledger, ps) && others !! ledger.Keys && Left(live, others, ledger, |ps.filled|)
    ensures ps.self == NULL || ps.self in live
    ensures ps.fieldArray == NULL || (ps.fieldArray in live && ps.fieldArray !in {ps.protocol, ps.error, ps.self})
    ensures ps.protocol == NULL || (ps.protocol in live && ps.protocol !in {ps.error, ps.self})
    ensures ps.error == NULL || (ps.error in live && ps.error != ps.self)
    ensures NULL !in others ==> live - {ps.fieldArray, ps.protocol, ps.error, ps.self} == others
  {
    assert ps.Of(Self) == ps.self && ps.Of(Array) == ps.fieldArray && ps.Of(Protocol) == ps.protocol
      && ps.Of(Error) == ps.error;
  }

  // ---------- The buffer ----------

  const GROWTH_COMPLAINT: string := "out of memory while growing ParsedField slot array"
  const NAME_COMPLAINT: string := "out of memory duplicating field name"
  const VALUE_COMPLAINT: string := "out of memory duplicating field value"
  const BINARY_COMPLAINT: string := "memory allocation failed for binary field"

  class ParsedData {
    const heap: Heap
    const self: nat
    var fields: nat
    var slots: seq<ParsedField>
    var fieldCount: int
    var capacity: nat
    var protocolName: nat
    var errorMessage: nat
    /** The static slot handed out when the array cannot grow. */
    var dummy: ParsedField

    /** The blocks of the heap that are not this buffer's. */
    ghost const others: set<nat>
    ghost var ledger: map<nat, Role>
    ghost var growths: nat
    ghost var moved: nat

    /** The fields in use. */
    function Filled(): seq<ParsedField>
      reads this
    {
      if 0 <= fieldCount <= |slots| then slots[..fieldCount] else []
    }

    ghost function View(): Pointers
      reads this
    {
      Pointers(self, fields, protocolName, errorMessage, Filled())
    }

    ghost predicate Balanced()
      reads this, heap
    {
      Books(heap.live, others, ledger, View())
    }

    /** What holds of the heap and the buffer's part of it. */
    ghost predicate Tidy()
      reads this, heap
    {
      heap.Sound() && Balanced() && forall f :: f in Filled() ==> f.name != NULL && f.value != NULL
    }

    ghost predicate Valid()
      reads this, heap
    {
      Tidy() && Shaped()
    }

    /** What holds of the array and of the work spent on it. */
    ghost predicate Shaped()
      reads this
    {
      && self != NULL
      && 0 <= fieldCount <= capacity == |slots| && (fields == NULL <==> capacity == 0)
      && capacity == Capacity(growths)
      && (if growths == 0 then moved == 0 else moved + FIRST_CAPACITY == capacity)
      && (growths > 1 ==> capacity <= 2 * fieldCount)
    }

    ghost function Contents(): seq<Stored>
      requires Valid()
      reads this, heap
    {
      FieldsAt(heap.live, Filled())
    }

    /** The buffer around a fresh block, with or without a protocol name. */
    constructor (heap: Heap, self: nat, protocolName: nat)
      requires heap.Sound() && self in heap.live && self != protocolName
      requires protocolName != NULL ==> protocolName in heap.live
      ensures Valid() && Contents() == [] && errorMessage == NULL && fieldCount == capacity == 0
      ensures this.heap == heap && this.self == self && others == heap.live.Keys - {self, protocolName}
    {
      this.heap, this.self, this.protocolName := heap, self, protocolName;
      fields, slots, fieldCount, capacity, errorMessage, dummy := NULL, [], 0, 0, NULL, NO_FIELD;
      others := heap.live.Keys - {self, protocolName};
      ledger := if protocolName == NULL then map[self := Self] else map[self := Self, protocolName := Protocol];
      growths, moved := 0, 0;
    }

    /** The next slot would need a bigger array, which the heap refuses, and so does it the message saying so. */
    predicate LosesGrowth()
      reads this, heap
    {
      fieldCount >= capacity && !heap.plan(Growth, heap.calls) && !heap.plan(GrowthMessage, heap.calls + 1)
    }

    /** The array in a new block, if the heap grants it. */
    method MoveArray() returns (mem: nat)
      requires Tidy()
      modifies heap, `fields, `ledger
      ensures Tidy() && FieldsAt(heap.live, Filled()) == old(FieldsAt(heap.live, Filled()))
      ensures heap.calls == old(heap.calls) + 1 && (mem != NULL <==> old(heap.Grants(Growth)))
      ensures fields == (if mem != NULL then mem else old(fields)) && heap.mute == old(heap.mute)
    {
      ghost var before, live := View(), heap.live;
      assert fields != NULL ==> before.Of(Array) in ledger;
      mem := heap.Realloc(fields);
      if mem != NULL {
        BooksMoveArray(live, heap.live, others, ledger, before, mem);
        ledger := (ledger - {fields})[mem := Array];
        fields := mem;
        assert View() == before.(fieldArray := mem);
      }
    }

    /** Reallocates the array to the next capacity. */
    method Grow() returns (ok: bool)
      requires Valid() && fieldCount == capacity
      modifies heap, `fields, `ledger, `slots, `capacity, `growths, `moved
      ensures Valid() && Contents() == old(Contents())
      ensures ok == old(heap.Grants(Growth)) && heap.calls == old(heap.calls) + 1 && heap.mute == old(heap.mute)
      ensures if ok then fieldCount < capacity else capacity == old(capacity)
    {
      var newCapacity := if capacity != 0 then 2 * capacity else FIRST_CAPACITY;
      var mem := MoveArray();
      ok := mem != NULL;
      if ok {
        ghost var before := View();
        moved, growths := moved + capacity, growths + 1;
        slots, capacity := slots + seq(newCapacity - capacity, _ => NO_FIELD), newCapacity;
        assert View() == before;
      }
    }

    /** error_message = strdup_safe(...); the message itself may be lost. */
    method Complain(purpose: Purpose, text: string)
      requires Valid() && errorMessage == NULL
      modifies heap, `errorMessage, `ledger
      ensures Valid() && Contents() == old(Contents())
      ensures errorMessage != NULL <==> old(heap.Grants(purpose))
      ensures heap.mute == if purpose == Message && errorMessage == NULL then old(heap.mute) + 1 else old(heap.mute)
      ensures errorMessage != NULL ==> errorMessage in heap.live && heap.live[errorMessage] == text
    {
      ghost var before, live := View(), heap.live;
      errorMessage := heap.Malloc(purpose, text);
      if errorMessage != NULL {
        BooksAddError(live, heap.live, others, ledger, before, errorMessage, text);
        ledger := ledger[errorMessage := Error];
        assert View() == before.(error := errorMessage);
      } else {
        assert View() == before;
      }
    }

    /** Room for one more field, or an error if the message is not lost. */
    method Reserve() returns (ok: bool)
      requires Valid() && errorMessage == NULL
      modifies heap, `fields, `ledger, `slots, `capacity, `growths, `moved, `errorMessage
      ensures Valid() && Contents() == old(Contents()) && heap.mute == old(heap.mute)
      ensures ok <==> old(fieldCount < capacity || heap.Grants(Growth))
      ensures ok ==> errorMessage == NULL && fieldCount < capacity
      ensures !ok ==> fieldCount == capacity && (errorMessage == NULL <==> old(LosesGrowth()))
      ensures errorMessage != NULL ==> errorMessage in heap.live && heap.live[errorMessage] == GROWTH_COMPLAINT
      ensures ok ==> heap.calls == old(heap.calls) + if old(fieldCount >= capacity) then 1 else 0
    {
      ok := true;
      if fieldCount >= capacity {
        ok := Grow();
        if !ok { Complain(GrowthMessage, GROWTH_COMPLAINT); }
      }
    }

    function ContentComplaint(binary: bool): string {
      if binary then BINARY_COMPLAINT else VALUE_COMPLAINT
    }

    /** An error that there is says which memory there was none of. */
    ghost predicate TellsMemory()
      reads this, heap
    {
      errorMessage != NULL ==>
        && errorMessage in heap.live
        && heap.live[errorMessage] in {GROWTH_COMPLAINT, NAME_COMPLAINT, VALUE_COMPLAINT, BINARY_COMPLAINT}
    }

    /** The copies of a name and of a value, both or neither. */
    method Copy(name: string, content: string, binary: bool) returns (f: ParsedField, complaint: string)
      requires heap.Sound()
      modifies heap
      ensures heap.Sound() && heap.mute == old(heap.mute)
      ensures f.name == NULL ==> heap.live == old(heap.live)
      ensures f.name != NULL ==> f.value != NULL && f.name != f.value
      ensures f.name != NULL ==> f.name !in old(heap.live) && f.value !in old(heap.live)
      ensures f.name != NULL ==> heap.live == old(heap.live)[f.name := CString(name)][f.value := content]
      ensures f.name != NULL <==> old(heap.Grants(Name) && heap.plan(Content, heap.calls + 1))
      ensures complaint == if old(heap.Grants(Name)) then ContentComplaint(binary) else NAME_COMPLAINT
    {
      ghost var live := heap.live;
      f, complaint := NO_FIELD, NAME_COMPLAINT;
      var n := heap.Malloc(Name, CString(name));
      if n == NULL { return; }
      var c := heap.Malloc(Content, content);
      if c == NULL {
        heap.Free(n);
        assert heap.live == live;
        complaint := ContentComplaint(binary);
        return;
      }
      complaint := ContentComplaint(binary);
      f := ParsedField(n, c, false, 0);
    }

    /** The copied field in the next slot. */
    method Push(f: ParsedField, ghost live: map<nat, string>)
      requires heap.Sound() && Books(live, others, ledger, View()) && fieldCount < capacity
      requires Shaped() && forall g :: g in Filled() ==> g.name != NULL && g.value != NULL
      requires f.name != NULL && f.value != NULL && f.name != f.value && f.name !in live && f.value !in live
      requires heap.live.Keys == live.Keys + {f.name, f.value} && forall p :: p in live ==> heap.live[p] == live[p]
      modifies `slots, `fieldCount, `ledger
      ensures Valid() && Contents() == old(FieldsAt(live, Filled())) + [FieldAt(heap.live, f)]
    {
      ghost var before := View();
      BooksAddField(live, heap.live, others, ledger, before, f);
      ledger := ledger[f.name := NameOf(|before.filled|)][f.value := ValueOf(|before.filled|)];
      slots, fieldCount := slots[fieldCount := f], fieldCount + 1;
      assert View() == before.(filled := before.filled + [f]);
    }

    /** Some ledger balances the books: no block has been lost and no field dropped. */
    ghost predicate Consistent()
      reads this, heap
    {
      0 <= fieldCount && exists l :: Books(heap.live, others, l, View())
    }

    /** What a caller goes on to do when the array could not grow and nothing said so: it fills the static slot. */
    method FillDummy(name: string, content: string, binary: bool)
      requires Valid() && errorMessage == NULL && fieldCount == capacity
      modifies heap, `dummy, `fieldCount, `errorMessage
      ensures !Consistent()
    {
      ghost var before, live := View(), heap.live;
      var f, complaint := Copy(name, content, binary);
      if f.name != NULL {
        dummy := f.(binary := binary, length := |content|);
        BlockLost(live, heap.live, others, ledger, before, f.name);
      } else {
        errorMessage := heap.Malloc(Message, complaint);
        fieldCount := fieldCount - 1;
        if fieldCount >= 0 {
          assert Filled() == before.filled[..fieldCount];
          FieldDropped(live, heap.live, others, ledger, before, View());
        }
      }
    }

    function Made(name: string, content: string, binary: bool): Stored {
      Stored(CString(name), if binary then Binary(content) else Text(content))
    }

    /** The copies into the free slot, or an error if the message is not lost. */
    method Fill(name: string, content: string, binary: bool, length: nat) returns (ghost added: bool)
      requires Valid() && errorMessage == NULL && fieldCount < capacity && (binary ==> length == |content|)
      modifies this, heap
      ensures Valid() && Contents() == old(Contents()) + if added then [Made(name, content, binary)] else []
      ensures errorMessage != NULL ==> !added
      ensures heap.mute == old(heap.mute) + if !added && errorMessage == NULL then 1 else 0
      ensures heap.Generous() || heap.Silent() ==> errorMessage == NULL
      ensures heap.Always(Message) ==> heap.mute == old(heap.mute)
      ensures heap.Never(Name) ==> !added
      ensures errorMessage != NULL ==>
        && errorMessage in heap.live
        && heap.live[errorMessage] == if old(heap.Grants(Name)) then ContentComplaint(binary) else NAME_COMPLAINT
    {
      ghost var live := heap.live;
      var f, complaint := Copy(name, content, binary);
      added := f.name != NULL;
      if f.name == NULL {
        Complain(Message, complaint);
      } else {
        f := f.(binary := binary, length := length);
        FieldReads(heap.live, f, CString(name), content);
        Push(f, live);
      }
    }

    /** What an add that fails complains of: the array, or else the name, or else the value. */
    ghost function Complaint(binary: bool): string
      reads this, heap
    {
      var full := fieldCount >= capacity;
      if full && !heap.Grants(Growth) then "out of memory while growing ParsedField slot array"
      else if !heap.plan(Name, heap.calls + if full then 1 else 0) then "out of memory duplicating field name"
      else if binary then "memory allocation failed for binary field"
      else "out of memory duplicating field value"
    }

    /** add_field_str and add_field_bin from the check for an earlier error to the filled slot. */
    method AddField(name: string, content: string, binary: bool, length: nat) returns (ghost added: bool)
      requires Valid() && (binary ==> length == |content|)
      modifies this, heap
      ensures old(errorMessage) != NULL ==> Valid() && Contents() == old(Contents()) && !added
      ensures old(errorMessage) != NULL ==> errorMessage == old(errorMessage) && heap.live == old(heap.live)
      ensures old(errorMessage) == NULL ==> (Consistent() <==> !old(LosesGrowth()))
      ensures Consistent() ==> Valid()
      ensures Consistent() ==> Contents() == old(Contents()) + if added then [Made(name, content, binary)] else []
      ensures errorMessage != NULL ==> !added
      ensures Consistent() ==> heap.mute == old(heap.mute) + if !added && errorMessage == NULL then 1 else 0
      ensures Consistent() && heap.Always(Message) ==> heap.mute == old(heap.mute)
      ensures Consistent() && heap.Never(Name) ==> !added
      ensures (heap.Generous() || heap.Silent()) && old(errorMessage) == NULL ==> errorMessage == NULL
      ensures Consistent() && old(errorMessage) == NULL && errorMessage != NULL ==>
        errorMessage in heap.live && heap.live[errorMessage] == old(Complaint(binary))
    {
      added := false;
      if errorMessage != NULL { return; }
      var room := Reserve();
      if errorMessage != NULL { return; }
      if room {
        added := Fill(name, content, binary, length);
      } else {
        FillDummy(name, content, binary);
      }
    }

    /** Where a walk is; an exception is to be thrown after so many more fields, or none at all. */
    ghost function Here(until: Option<nat>): Trail
      requires Valid()
      reads this, heap
    {
      Trail(Contents(), heap.mute, errorMessage != NULL, until)
    }

    method AddFieldStr(name: string, value: string) returns (ghost kept: seq<bool>)
      requires Valid() && heap.TellsOfGrowth()
      modifies this, heap
      ensures old(TellsMemory()) ==> TellsMemory()
      ensures Valid() && Walk(old(Here(None)), [TextField(name, value)], kept, Here(None), heap.Habit())
    {
      ghost var t := Here(None);
      ghost var added := AddField(name, CString(value), false, |value|);
      kept := Flags(added, errorMessage != NULL);
      WalkOne(t, TextField(name, value), added, Here(None), heap.Habit());
    }

    method AddFieldBin(name: string, data: string) returns (ghost kept: seq<bool>)
      requires Valid() && heap.TellsOfGrowth()
      modifies this, heap
      ensures old(TellsMemory()) ==> TellsMemory()
      ensures var f := Stored(CString(name), if data == "" then Text("") else Binary(data));
        Valid() && Walk(old(Here(None)), [f], kept, Here(None), heap.Habit())
    {
      if |data| == 0 {
        kept := AddFieldStr(name, "");
      } else {
        ghost var t := Here(None);
        ghost var added := AddField(name, data, true, |data|);
        kept := Flags(added, errorMessage != NULL);
        WalkOne(t, Made(name, data, true), added, Here(None), heap.Habit());
      }
    }

    /** One field, unless the exception comes first. */
    method AddLeaf(name: string, value: Scalar, until: Option<nat>)
      returns (left: Option<nat>, thrown: bool, ghost kept: seq<bool>)
      requires Valid() && heap.TellsOfGrowth() && (value.Binary? ==> value.b != "")
      modifies this, heap
      ensures old(TellsMemory()) ==> TellsMemory()
      ensures Valid() && Walk(old(Here(until)), [LeafOf(name, value)], kept, Here(left), heap.Habit())
        && thrown == Cut(until, 1)
    {
      left, thrown, kept := Rest(until, 1), Cut(until, 1), [];
      ghost var t := Here(None);
      if thrown {
        WalkNone(t, LeafOf(name, value), heap.Habit());
        return;
      }
      match value {
        case Text(s) => kept := AddFieldStr(name, s);
        case Binary(b) => kept := AddFieldBin(name, b);
      }
      WalkUntil(t, LeafOf(name, value), kept, Here(None), heap.Habit(), until);
    }

    /** The values without children. */
    method DumpLeaf(prefix: string, v: Value, depth: nat, until: Option<nat>)
      returns (left: Option<nat>, thrown: bool, ghost kept: seq<bool>)
      requires Valid() && heap.TellsOfGrowth() && (depth > MAX_DEPTH || v.Atomic? || v.Bytes? || v == Optional(None))
      modifies this, heap
      ensures old(TellsMemory()) ==> TellsMemory()
      ensures Valid() && Walk(old(Here(until)), Dump(prefix, v, depth), kept, Here(left), heap.Habit())
      ensures thrown == Cut(until, |Dump(prefix, v, depth)|)
    {
      var value := if depth > MAX_DEPTH then Text("<depth-limit>") else
        match v
        case Atomic(text) => Text(text)
        case Bytes(b) => if Printable(b) && |b| <= MAX_TEXT then Text(b) else Binary(b)
        case _ => Text("<nil>");
      assert NUL !in "<depth-limit>" && NUL !in "<nil>";
      assert Dump(prefix, v, depth) == [LeafOf(prefix, value)];
      left, thrown, kept := AddLeaf(prefix, value, until);
    }

    /**
     * dump_value: the fields of the value are tried in order, up to the exception, and added up to the first
     * allocation whose failure is recorded; a failure whose message is lost as well leaves out its field alone.
     */
    method DumpValue(prefix: string, v: Value, depth: nat, until: Option<nat>)
      returns (left: Option<nat>, thrown: bool, ghost kept: seq<bool>)
      requires Valid() && heap.TellsOfGrowth()
      modifies this, heap
      ensures old(TellsMemory()) ==> TellsMemory()
      ensures Valid() && Walk(old(Here(until)), Dump(prefix, v, depth), kept, Here(left), heap.Habit())
      ensures thrown == Cut(until, |Dump(prefix, v, depth)|)
      decreases v, 0
    {
      if depth > MAX_DEPTH {
        left, thrown, kept := DumpLeaf(prefix, v, depth, until);
        return;
      }
      match v {
        case Reference(target) =>
          assert Dump(prefix, v, depth) == Dump(prefix, target, 0);
          left, thrown, kept := DumpValue(prefix, target, 0, until);
        case Vector(elems) =>
          assert Dump(prefix, v, depth) == DumpElems(prefix, elems, 0, depth);
          left, thrown, kept := DumpSequence(prefix, elems, depth, until);
        case Set(members) =>
          assert Dump(prefix, v, depth) == DumpElems(prefix, members, 0, depth);
          left, thrown, kept := DumpSequence(prefix, members, depth, until);
        case Dict(pairs) =>
          assert Dump(prefix, v, depth) == DumpPairs(prefix, pairs, depth);
          left, thrown, kept := DumpDict(prefix, pairs, depth, until);
        case Optional(Some(inner)) =>
          assert Dump(prefix, v, depth) == Dump(prefix, inner, depth + 1);
          left, thrown, kept := DumpValue(prefix, inner, depth + 1, until);
        case Struct(members) =>
          assert Dump(prefix, v, depth) == DumpFields(prefix, members, depth);
          left, thrown, kept := DumpStruct(prefix, members, depth, until);
        case _ =>
          left, thrown, kept := DumpLeaf(prefix, v, depth, until);
      }
    }

    /** One more value after what a loop has walked so far. */
    method DumpNext(key: string, v: Value, depth: nat, until: Option<nat>, ghost t: Trail, ghost out: seq<Stored>,
                    ghost sofar: seq<bool>)
      returns (left: Option<nat>, thrown: bool, ghost kept: seq<bool>)
      requires Valid() && heap.TellsOfGrowth() && Walk(t, out, sofar, Here(until), heap.Habit()) && !Cut(t.until, |out|)
      modifies this, heap
      ensures old(TellsMemory()) ==> TellsMemory()
      ensures Valid() && Walk(t, out + Dump(key, v, depth), kept, Here(left), heap.Habit())
      ensures thrown == Cut(t.until, |out + Dump(key, v, depth)|)
      decreases v, 1
    {
      ghost var mid := Here(until);
      ghost var more: seq<bool>;
      left, thrown, more := DumpValue(key, v, depth, until);
      WalkTwice(t, out, sofar, mid, Dump(key, v, depth), more, Here(left), heap.Habit());
      kept := sofar + more;
    }

    method DumpSequence(prefix: string, elems: seq<Value>, depth: nat, until: Option<nat>)
      returns (left: Option<nat>, thrown: bool, ghost kept: seq<bool>)
      requires Valid() && heap.TellsOfGrowth()
      modifies this, heap
      ensures old(TellsMemory()) ==> TellsMemory()
      ensures Valid() && Walk(old(Here(until)), DumpElems(prefix, elems, 0, depth), kept, Here(left), heap.Habit())
      ensures thrown == Cut(until, |DumpElems(prefix, elems, 0, depth)|)
      decreases elems, 2
    {
      left, thrown, kept := until, false, [];
      ghost var t, out, whole := Here(until), [], DumpElems(prefix, elems, 0, depth);
      for i := 0 to |elems|
        invariant Valid() && Walk(t, out, kept, Here(left), heap.Habit()) && !Cut(until, |out|) && !thrown
        invariant old(TellsMemory()) ==> TellsMemory()
        invariant out + DumpElems(prefix, elems[i..], i, depth) == whole
      {
        var key := Extend(prefix, Index(i));
        ghost var next := out + Dump(key, elems[i], depth + 1);
        DumpElemsNext(prefix, elems, i, depth, out, next, whole);
        left, thrown, kept := DumpNext(key, elems[i], depth + 1, left, t, out, kept);
        out := next;
        if thrown {
          WalkPrefix(t, out, kept, Here(left), heap.Habit(), whole);
          return;
        }
      }
      assert elems[|elems|..] == [] && out == whole;
    }

    method DumpDict(prefix: string, pairs: seq<Pair>, depth: nat, until: Option<nat>)
      returns (left: Option<nat>, thrown: bool, ghost kept: seq<bool>)
      requires Valid() && heap.TellsOfGrowth()
      modifies this, heap
      ensures old(TellsMemory()) ==> TellsMemory()
      ensures Valid() && Walk(old(Here(until)), DumpPairs(prefix, pairs, depth), kept, Here(left), heap.Habit())
      ensures thrown == Cut(until, |DumpPairs(prefix, pairs, depth)|)
      decreases pairs, 2
    {
      left, thrown, kept := until, false, [];
      ghost var t, out, whole := Here(until), [], DumpPairs(prefix, pairs, depth);
      for i := 0 to |pairs|
        invariant Valid() && Walk(t, out, kept, Here(left), heap.Habit()) && !Cut(until, |out|) && !thrown
        invariant old(TellsMemory()) ==> TellsMemory()
        invariant out + DumpPairs(prefix, pairs[i..], depth) == whole
      {
        assert pairs[i].value < pairs[i];
        var key := Extend(prefix, Field(KeyText(pairs[i].key)));
        ghost var next := out + Dump(key, pairs[i].value, depth + 1);
        DumpPairsNext(prefix, pairs, i, depth, out, next, whole);
        left, thrown, kept := DumpNext(key, pairs[i].value, depth + 1, left, t, out, kept);
        out := next;
        if thrown {
          WalkPrefix(t, out, kept, Here(left), heap.Habit(), whole);
          return;
        }
      }
      assert pairs[|pairs|..] == [] && out == whole;
    }

    method DumpStruct(prefix: string, members: seq<Member>, depth: nat, until: Option<nat>)
      returns (left: Option<nat>, thrown: bool, ghost kept: seq<bool>)
      requires Valid() && heap.TellsOfGrowth()
      modifies this, heap
      ensures old(TellsMemory()) ==> TellsMemory()
      ensures Valid() && Walk(old(Here(until)), DumpFields(prefix, members, depth), kept, Here(left), heap.Habit())
      ensures thrown == Cut(until, |DumpFields(prefix, members, depth)|)
      decreases members, 2
    {
      left, thrown, kept := until, false, [];
      ghost var t, out, whole := Here(until), [], DumpFields(prefix, members, depth);
      for i := 0 to |members|
        invariant Valid() && Walk(t, out, kept, Here(left), heap.Habit()) && !Cut(until, |out|) && !thrown
        invariant old(TellsMemory()) ==> TellsMemory()
        invariant out + DumpFields(prefix, members[i..], depth) == whole
      {
        var key := Extend(prefix, Field(members[i].name));
        ghost var next := out + Dump(key, members[i].value, depth + 1);
        DumpFieldsNext(prefix, members, i, depth, out, next, whole);
        left, thrown, kept := DumpNext(key, members[i].value, depth + 1, left, t, out, kept);
        out := next;
        if thrown {
          WalkPrefix(t, out, kept, Here(left), heap.Habit(), whole);
          return;
        }
      }
      assert members[|members|..] == [] && out == whole;
    }

    /** Sound but for some blocks that are live and that nothing refers to. */
    ghost predicate ValidBut(lost: set<nat>)
      reads this, heap
    {
      && heap.Sound() && Shaped() && Books(heap.live, others + lost, ledger, View())
      && forall f :: f in Filled() ==> f.name != NULL && f.value != NULL
    }

    /** A message is written over the one there was, whose block nothing refers to from then on. */
    method Overwrite(text: string)
      requires Valid() && errorMessage != NULL
      modifies heap, `errorMessage, `ledger
      ensures ValidBut({old(errorMessage)}) && FieldsAt(heap.live, Filled()) == old(Contents()) && !Consistent()
      ensures errorMessage != NULL <==> old(heap.Grants(Message))
      ensures errorMessage != NULL ==> errorMessage in heap.live && heap.live[errorMessage] == text
      ensures heap.mute == if errorMessage == NULL then old(heap.mute) + 1 else old(heap.mute)
    {
      ghost var before, live := View(), heap.live;
      errorMessage := heap.Malloc(Message, text);
      assert View() == before.(error := errorMessage);
      ErrorLost(live, heap.live, others, ledger, before, errorMessage, text);
      ledger := ledger - {before.error} + if errorMessage == NULL then map[] else map[errorMessage := Error];
    }

    /** An error is stored over whatever message there was, as the catch clauses do. */
    method SetError(text: string) returns (ghost lost: set<nat>)
      requires Valid()
      modifies heap, `errorMessage, `ledger
      ensures lost == if old(errorMessage) == NULL then {} else {old(errorMessage)}
      ensures ValidBut(lost) && FieldsAt(heap.live, Filled()) == old(Contents())
      ensures Consistent() <==> old(errorMessage) == NULL
      ensures errorMessage != NULL <==> old(heap.Grants(Message))
      ensures errorMessage != NULL ==> errorMessage in heap.live && heap.live[errorMessage] == CString(text)
      ensures heap.mute == if errorMessage == NULL then old(heap.mute) + 1 else old(heap.mute)
    {
      if errorMessage == NULL {
        lost := {};
        Complain(Message, CString(text));
        NothingLost();
      } else {
        lost := {errorMessage};
        Overwrite(CString(text));
      }
    }

    lemma NothingLost()
      requires Valid()
      ensures ValidBut({}) && Consistent()
    {
      assert others + {} == others;
      assert Books(heap.live, others, ledger, View());
    }

    /**
     * How a parse that made a buffer ends. The fields are the kept ones of those tried, and a value was flattened
     * without an error exactly when all were tried; each one missing, and each error missing, lost its message. The
     * books balance but for the blocks lost: none unless an exception came after a recorded error.
     */
    ghost predicate Ends(outcome: Outcome, kept: seq<bool>, lost: set<nat>, mute: nat)
      reads this, heap
    {
      && ValidBut(lost) && (Consistent() <==> lost == {})
      && |kept| <= |Emitted(outcome)| && FieldsAt(heap.live, Filled()) == Pick(Emitted(outcome), kept)
      && (lost != {} <==> outcome.Interrupted? && |kept| < |Emitted(outcome)|)
      && (outcome.Parsed? ==> (errorMessage == NULL <==> |kept| == |Emitted(outcome)|))
      && heap.mute == mute + Missing(kept) + (if !outcome.Parsed? && errorMessage == NULL then 1 else 0)
      && (heap.Generous() ==> (errorMessage == NULL <==> outcome.Parsed?)) && (heap.Silent() ==> errorMessage == NULL)
      && (heap.Always(Message) ==> heap.mute == mute) && (heap.Never(Name) ==> true !in kept)
      && (outcome.Parsed? ==> TellsMemory())
      && (!outcome.Parsed? && errorMessage != NULL ==>
            errorMessage in heap.live && heap.live[errorMessage] == ErrorText(outcome))
    }

    /** The loop of spicy_free_parsed_data. */
    method FreeFields(ghost lost: set<nat>)
      requires ValidBut(lost)
      modifies heap`live
      ensures heap.Sound() && heap.live.Keys <= old(heap.live).Keys
      ensures Left(heap.live.Keys, others + lost, ledger, |Filled()|)
      ensures forall p :: p in heap.live ==> heap.live[p] == old(heap.live)[p]
    {
      ghost var live, ps := heap.live, View();
      for i := 0 to fieldCount
        invariant heap.Sound() && heap.live.Keys <= live.Keys
        invariant forall p :: p in heap.live ==> heap.live[p] == live[p]
        invariant Left(heap.live.Keys, others + lost, ledger, i)
      {
        assert slots[i] == ps.filled[i] && slots[i] in Filled();
        NextField(heap.live.Keys, others + lost, ledger, ps, i);
        heap.Free(slots[i].name);
        heap.Free(slots[i].value);
      }
    }

    /** The four blocks that are left when the fields are gone, or as many of them as there are. */
    method FreeRest(ghost rest: set<nat>)
      requires heap.Sound() && heap.live.Keys - {fields, protocolName, errorMessage, self} == rest
      requires fields == NULL || (fields in heap.live && fields !in {protocolName, errorMessage, self})
      requires protocolName == NULL || (protocolName in heap.live && protocolName !in {errorMessage, self})
      requires errorMessage == NULL || (errorMessage in heap.live && errorMessage != self)
      requires self == NULL || self in heap.live
      modifies heap`live
      ensures heap.Sound() && heap.live.Keys == rest
      ensures forall p :: p in rest ==> heap.live[p] == old(heap.live)[p]
    {
      heap.Free(fields);
      heap.Free(protocolName);
      heap.Free(errorMessage);
      heap.Free(self);
    }

    /** spicy_free_parsed_data: every block that the buffer refers to is freed, each once, and nothing else. */
    method Free(ghost lost: set<nat>)
      requires ValidBut(lost)
      modifies heap`live
      ensures heap.Sound() && heap.live.Keys == others + lost
      ensures forall p :: p in others ==> heap.live[p] == old(heap.live)[p]
    {
      ghost var ps := View();
      FreeFields(lost);
      LastBlocks(heap.live.Keys, others + lost, ledger, ps);
      FreeRest(others + lost);
    }
  }

  // ---------- A parse from end to end ----------

  /** What looking up the parser and running it came to; the last, an exception after so many fields. */
  datatype Outcome =
    | NotReady
    | NoParser
    | NoValue
    | Thrown(what: string)
    | Parsed(value: Value)
    | Interrupted(value: Value, fields: nat, what: string)

  /** The fields that are tried. */
  function Emitted(outcome: Outcome): seq<Stored> {
    match outcome
    case Parsed(value) => Dump("", value, 0)
    case Interrupted(value, fields, _) => Dump("", value, 0)[..Allowed(Some(fields), |Dump("", value, 0)|)]
    case _ => []
  }

  /** The message of a parse that came to no value. */
  function ErrorText(outcome: Outcome): string {
    match outcome
    case NotReady => "runtime not initialized"
    case NoParser => "parser not found"
    case NoValue => "no value returned"
    case Thrown(what) => CString(what)
    case Interrupted(_, _, what) => CString(what)
    case Parsed(_) => ""
  }

  lemma MessageIsWhole(outcome: Outcome)
    ensures CString(ErrorText(outcome)) == ErrorText(outcome)
  {
    assert NUL !in "runtime not initialized" && NUL !in "parser not found" && NUL !in "no value returned";
  }

  /** A zeroed buffer with the parser's name, or null; the name may be lost. */
  method Create(heap: Heap, parserName: string) returns (d: ParsedData?)
    requires heap.Sound()
    modifies heap
    ensures heap.Sound() && heap.mute == old(heap.mute)
    ensures (d == null ==> heap.live == old(heap.live)) && (d == null <==> !old(heap.Grants(Block)))
    ensures d != null ==> fresh(d) && d.heap == heap && d.Valid() && d.Contents() == []
    ensures d != null ==> d.errorMessage == NULL && d.fieldCount == d.capacity == 0 && d.others == old(heap.live).Keys
  {
    ghost var live := heap.live;
    var block := heap.Malloc(Block, "");
    if block == NULL { return null; }
    var name := heap.Malloc(ParserName, CString(parserName));
    d := new ParsedData(heap, block, name);
    assert d.others == live.Keys;
  }

  /** The fields of a value, into a new buffer. */
  method FlattenAll(d: ParsedData, value: Value) returns (ghost kept: seq<bool>)
    requires d.Valid() && d.Contents() == [] && d.errorMessage == NULL && d.heap.TellsOfGrowth()
    modifies d, d.heap
    ensures d.Ends(Parsed(value), kept, {}, old(d.heap.mute))
  {
    var left, thrown;
    left, thrown, kept := d.DumpValue("", value, 0, None);
    d.NothingLost();
  }

  /** What the walk over a value that an exception cuts short leaves, in terms of the fields tried. */
  lemma WalkOfEmitted(outcome: Outcome, t: Trail, kept: seq<bool>, e: Trail, n: Nature)
    requires outcome.Interrupted? && t.fields == [] && !t.failed && t.until == Some(outcome.fields)
    requires Walk(t, Dump("", outcome.value, 0), kept, e, n)
    ensures |kept| <= |Emitted(outcome)| && e.fields == Pick(Emitted(outcome), kept)
    ensures e.failed <==> |kept| < |Emitted(outcome)|
  {
    var all := Dump("", outcome.value, 0);
    PickPrefix(all, kept, Allowed(t.until, |all|));
  }

  /** The fields before the exception, and then what was thrown. */
  method FlattenUntil(d: ParsedData, value: Value, fields: nat, what: string)
      returns (ghost kept: seq<bool>, ghost lost: set<nat>)
    requires d.Valid() && d.Contents() == [] && d.errorMessage == NULL && d.heap.TellsOfGrowth()
    modifies d, d.heap
    ensures d.Ends(Interrupted(value, fields, what), kept, lost, old(d.heap.mute))
  {
    ghost var t := d.Here(Some(fields));
    var left, thrown;
    left, thrown, kept := d.DumpValue("", value, 0, Some(fields));
    WalkOfEmitted(Interrupted(value, fields, what), t, kept, d.Here(left), d.heap.Habit());
    lost := d.SetError(what);
  }

  /** No value: there is just an error. */
  method Fail(d: ParsedData, outcome: Outcome, text: string) returns (ghost lost: set<nat>)
    requires d.Valid() && d.Contents() == [] && d.errorMessage == NULL
    requires Emitted(outcome) == [] && !outcome.Parsed? && ErrorText(outcome) == CString(text)
    modifies d, d.heap
    ensures d.Ends(outcome, [], lost, old(d.heap.mute))
  {
    assert Pick(Emitted(outcome), []) == [] && Missing([]) == 0;
    lost := d.SetError(text);
    assert FieldsAt(d.heap.live, d.Filled()) == [] && lost == {};
  }

  /** spicy_parse_generic: null, exactly without input or when the block is refused, or a buffer. */
  method ParseGeneric(heap: Heap, parserName: string, length: int, outcome: Outcome)
    returns (d: ParsedData?, ghost kept: seq<bool>, ghost lost: set<nat>)
    requires heap.Sound() && heap.TellsOfGrowth()
    modifies heap
    ensures heap.Sound() && (d == null ==> heap.live == old(heap.live) && heap.mute == old(heap.mute))
    ensures d == null <==> length <= 0 || !old(heap.Grants(Block))
    ensures d != null ==> fresh(d) && d.heap == heap && d.others == old(heap.live).Keys
    ensures d != null ==> d.Ends(outcome, kept, lost, old(heap.mute))
  {
    kept, lost := [], {};
    if length <= 0 { return null, kept, lost; }
    d := Create(heap, parserName);
    if d == null { return; }
    match outcome {
      case Parsed(value) => kept := FlattenAll(d, value);
      case Interrupted(value, fields, what) => kept, lost := FlattenUntil(d, value, fields, what);
      case _ =>
        MessageIsWhole(outcome);
        lost := Fail(d, outcome, ErrorText(outcome));
    }
  }

  /** Both failures happen: a new buffer on a heap that can neither grow an array nor store the message saying so. */
  method SilentGrowth() returns (d: ParsedData)
    ensures fresh(d) && d.Valid() && d.errorMessage == NULL && d.LosesGrowth()
  {
    var heap := new Heap((purpose, n) => purpose != Growth && purpose != GrowthMessage);
    var made := Create(heap, "TCP::Protocol");
    d := made;
  }

  /** And an exception after the name of the one field could not be copied: the message about that is lost. */
  method ExceptionAfterError(parserName: string, name: string, text: string, what: string)
    returns (d: ParsedData, ghost lost: set<nat>)
    ensures fresh(d) && d.heap.Always(Message) && d.heap.Always(GrowthMessage)
    ensures lost != {} && d.ValidBut(lost) && !d.Consistent()
  {
    var heap := new Heap((purpose, n) => purpose != Name);
    var value := Struct([Member(name, Atomic(text))]);
    OneField(name, text);
    var made;
    ghost var kept;
    made, kept, lost := ParseGeneric(heap, parserName, 1, Interrupted(value, 1, what));
    NoneKept(kept);
    d := made;
  }

  lemma OneField(name: string, text: string)
    ensures |Dump("", Struct([Member(name, Atomic(text))]), 0)| == 1
  {
    var members := [Member(name, Atomic(text))];
    assert members[1..] == [];
    assert Dump("", Struct(members), 0) ==
      Dump(Extend("", Field(name)), Atomic(text), 1) + DumpFields("", members[1..], 0);
  }

  // ---------- What growing costs ----------

  function Pow2(k: nat): nat { if k == 0 then 1 else 2 * Pow2(k - 1) }

  lemma {:induction false} CapacityDoubles(growths: nat)
    requires growths > 0
    ensures Capacity(growths) == FIRST_CAPACITY * Pow2(growths - 1)
  {
    if growths > 1 { CapacityDoubles(growths - 1); }
  }

  /** Whatever was added: the capacity is none or 16 doubled, and fewer than two slots were moved for each field. */
  lemma GrowthBound(d: ParsedData)
    requires d.Valid()
    ensures d.capacity == 0 || exists k :: d.capacity == 16 * Pow2(k)
    ensures d.fieldCount >= 1 ==> d.moved < 2 * d.fieldCount
  {
    if d.growths > 0 { CapacityDoubles(d.growths); }
  }
}
