/** The document store as the services use it: four collections of documents
    keyed by string, and the three Firestore write primitives the services call
    (`set`, `set` with `{merge: true}`, and `update`). A write either lands or is
    refused by the store; nothing else about the store is modelled. */
module Store {

  datatype Option<+T> = None | Some(value: T)

  /** JavaScript truthiness of an optional string: present and not empty. */
  predicate Truthy(s: Option<string>) {
    s.Some? && s.value != ""
  }

  /** A JavaScript number, kept as its IEEE-754 bit pattern: the services only
      copy numbers from requests into documents and never compute with them. */
  type Number = bv64

  /** A point in time: a JavaScript Date, stored by Firestore as a Timestamp. */
  type Instant = int

  /** A Firestore field value. */
  datatype Value =
    | Str(s: string)
    | Num(n: Number)
    | Time(at: Instant)
    | List(items: seq<Value>)
    | Obj(fields: map<string, Value>)

  /** A document: its top-level fields. */
  type Doc = map<string, Value>

  /** A collection: documents by id. */
  type Table = map<string, Doc>

  datatype Collection = Users | Programs | Reservations | Vcs

  datatype Path = Path(collection: Collection, id: string)

  /** The whole database: the `users`, `programs`, `reservations` and `vcs` collections. */
  datatype Db = Db(users: Table, programs: Table, reservations: Table, vcs: Table) {

    function Get(c: Collection): Table {
      match c
      case Users => users
      case Programs => programs
      case Reservations => reservations
      case Vcs => vcs
    }

    function Put(c: Collection, t: Table): (db: Db)
      ensures db.Get(c) == t
      ensures forall d :: d != c ==> db.Get(d) == Get(d)
    {
      match c
      case Users => this.(users := t)
      case Programs => this.(programs := t)
      case Reservations => this.(reservations := t)
      case Vcs => this.(vcs := t)
    }
  }

  datatype Error =
    | Unavailable(at: Path)       // the store refused the write (network, permission, quota)
    | NotFound(at: Path)          // `update` of a document that does not exist
    | NoFieldsToUpdate(at: Path)  // `update` with no fields, refused by the client library
    | QueryRefused(queried: Collection)      // the store refused a query (network, permission)
    | MissingTimestamp(queried: Collection)  // a matching document has no Timestamp `issuedAt`

  datatype Outcome = Ok | Err(error: Error)

  /** What a write, or a sequence of writes, returns and leaves behind. */
  datatype Effect = Effect(outcome: Outcome, db: Db)

  /** Firestore's merge of a written value into a stored one: a non-empty map is
      merged key by key, recursively; anything else (a scalar, a list, an empty
      map) replaces what was stored. */
  function MergeValue(current: Value, written: Value): (v: Value)
    ensures !(current.Obj? && written.Obj?) ==> v == written
    decreases written
  {
    if current.Obj? && written.Obj? && written.fields != map[] then
      Obj(map k | k in current.fields.Keys + written.fields.Keys ::
            if k !in written.fields then current.fields[k]
            else if k !in current.fields then written.fields[k]
            else MergeValue(current.fields[k], written.fields[k]))
    else
      written
  }

  /** The document that `set(written, {merge: true})` leaves over `current`. */
  function MergeDoc(current: Doc, written: Doc): (d: Doc)
    ensures d.Keys == current.Keys + written.Keys
    ensures forall f :: f in d && f !in written ==> d[f] == current[f]
    ensures forall f :: f in written && f !in current ==> d[f] == written[f]
    ensures forall f :: f in written && f in current ==> d[f] == MergeValue(current[f], written[f])
  {
    if written == map[] then current else MergeValue(Obj(current), Obj(written)).fields
  }

  lemma {:induction false} MergeValueSelf(v: Value)
    ensures MergeValue(v, v) == v
    decreases v
  {
    if v.Obj? && v.fields != map[] {
      forall k | k in v.fields
        ensures MergeValue(v.fields[k], v.fields[k]) == v.fields[k]
      {
        MergeValueSelf(v.fields[k]);
      }
      assert MergeValue(v, v).fields == v.fields;
    }
  }

  lemma {:induction false} MergeValueIdempotent(current: Value, written: Value)
    ensures MergeValue(MergeValue(current, written), written) == MergeValue(current, written)
    decreases written
  {
    var m := MergeValue(current, written);
    if current.Obj? && written.Obj? && written.fields != map[] {
      forall k | k in written.fields
        ensures MergeValue(m.fields[k], written.fields[k]) == m.fields[k]
      {
        if k in current.fields {
          MergeValueIdempotent(current.fields[k], written.fields[k]);
        } else {
          MergeValueSelf(written.fields[k]);
        }
      }
      assert MergeValue(m, written).fields == m.fields;
    } else {
      MergeValueSelf(written);
    }
  }

  /** Merging into a missing document writes exactly the given fields, as a
      plain `set` would. */
  lemma MergeIntoNothing(written: Doc)
    ensures MergeDoc(map[], written) == written
  {
  }

  /** Repeating the same merge changes nothing. */
  lemma MergeDocIdempotent(current: Doc, written: Doc)
    ensures MergeDoc(MergeDoc(current, written), written) == MergeDoc(current, written)
  {
    var m := MergeDoc(current, written);
    forall f | f in written && f in current
      ensures MergeValue(m[f], written[f]) == m[f]
    {
      MergeValueIdempotent(current[f], written[f]);
    }
    forall f | f in written && f !in current
      ensures MergeValue(m[f], written[f]) == m[f]
    {
      MergeValueSelf(written[f]);
    }
    assert MergeDoc(m, written) == m;
  }

  /** When no written value is a map, merging is plain overwriting: the written
      fields take the given values and every other stored field stays. */
  lemma MergeFlat(current: Doc, written: Doc)
    requires forall f :: f in written ==> !written[f].Obj?
    ensures MergeDoc(current, written) == current + written
  {
    var m := MergeDoc(current, written);
    forall f | f in written && f in current
      ensures m[f] == written[f]
    {
      assert !written[f].Obj?;
    }
    assert m == current + written;
  }

  /** `doc(p.id).set(data)`: replace the whole document. */
  function SetWrite(db: Db, rejected: set<Path>, p: Path, data: Doc): Effect {
    if p in rejected then Effect(Err(Unavailable(p)), db)
    else Effect(Ok, db.Put(p.collection, db.Get(p.collection)[p.id := data]))
  }

  /** `doc(p.id).set(data, {merge: true})`: create the document if needed and
      merge the given fields into it. */
  function MergeWrite(db: Db, rejected: set<Path>, p: Path, data: Doc): Effect {
    if p in rejected then Effect(Err(Unavailable(p)), db)
    else
      var t := db.Get(p.collection);
      var current := if p.id in t then t[p.id] else map[];
      Effect(Ok, db.Put(p.collection, t[p.id := MergeDoc(current, data)]))
  }

  /** `doc(p.id).update(data)`: the document must exist; each given top-level
      field is overwritten as a whole and the others are kept. The client
      library refuses an empty field map before contacting the store. */
  function UpdateWrite(db: Db, rejected: set<Path>, p: Path, data: Doc): Effect {
    if data == map[] then Effect(Err(NoFieldsToUpdate(p)), db)
    else if p in rejected then Effect(Err(Unavailable(p)), db)
    else
      var t := db.Get(p.collection);
      if p.id !in t then Effect(Err(NotFound(p)), db)
      else Effect(Ok, db.Put(p.collection, t[p.id := t[p.id] + data]))
  }

  /** The Firestore handle shared by the services. */
  class Firestore {
    var users: Table
    var programs: Table
    var reservations: Table
    var vcs: Table

    /** The documents whose writes the store refuses; an input to the model
        standing for every upstream failure. */
    const rejected: set<Path>

    /** The collections whose queries the store refuses, likewise an input. */
    const unreadable: set<Collection>

    constructor (rejected: set<Path>, unreadable: set<Collection>)
      ensures State() == Db(map[], map[], map[], map[])
      ensures this.rejected == rejected && this.unreadable == unreadable
    {
      users, programs, reservations, vcs := map[], map[], map[], map[];
      this.rejected := rejected;
      this.unreadable := unreadable;
    }

    function State(): Db
      reads this
    {
      Db(users, programs, reservations, vcs)
    }

    method Store(c: Collection, t: Table)
      modifies this
      ensures State() == old(State()).Put(c, t)
    {
      match c
      case Users => users := t;
      case Programs => programs := t;
      case Reservations => reservations := t;
      case Vcs => vcs := t;
    }

    method Set(p: Path, data: Doc) returns (r: Outcome)
      modifies this
      ensures Effect(r, State()) == SetWrite(old(State()), rejected, p, data)
    {
      if p in rejected {
        return Err(Unavailable(p));
      }
      var t := State().Get(p.collection);
      Store(p.collection, t[p.id := data]);
      r := Ok;
    }

    method SetMerge(p: Path, data: Doc) returns (r: Outcome)
      modifies this
      ensures Effect(r, State()) == MergeWrite(old(State()), rejected, p, data)
    {
      if p in rejected {
        return Err(Unavailable(p));
      }
      var t := State().Get(p.collection);
      var current := if p.id in t then t[p.id] else map[];
      Store(p.collection, t[p.id := MergeDoc(current, data)]);
      r := Ok;
    }

    method Update(p: Path, data: Doc) returns (r: Outcome)
      modifies this
      ensures Effect(r, State()) == UpdateWrite(old(State()), rejected, p, data)
    {
      if data == map[] {
        return Err(NoFieldsToUpdate(p));
      }
      if p in rejected {
        return Err(Unavailable(p));
      }
      var t := State().Get(p.collection);
      if p.id !in t {
        return Err(NotFound(p));
      }
      Store(p.collection, t[p.id := t[p.id] + data]);
      r := Ok;
    }
  }
}
