/** The generic repository every table goes through: lookups by primary key, inserts,
    merges and deletes, each committed on its own, with integrity errors rolled back. */
module BaseRepo {
  import opened Wrappers
  import opened Errors
  import Text

  // ---------------------------------------------------------------------------
  // Rows keyed by a primary key

  ghost predicate KeysUnique<E>(rows: seq<E>, keyOf: E -> string) {
    forall i, j :: 0 <= i < j < |rows| ==> keyOf(rows[i]) != keyOf(rows[j])
  }

  /** Position of the row whose primary key is `id`. */
  function IndexOfKey<E>(rows: seq<E>, keyOf: E -> string, id: string): (r: Option<nat>)
    ensures r.Some? ==> r.value < |rows| && keyOf(rows[r.value]) == id
    ensures r.None? ==> forall i :: 0 <= i < |rows| ==> keyOf(rows[i]) != id
  {
    if rows == [] then None
    else if keyOf(rows[0]) == id then Some(0)
    else match IndexOfKey(rows[1..], keyOf, id)
      case None => None
      case Some(i) => Some(i + 1)
  }

  /** The rows whose primary key is not `id`, in their order. */
  function Without<E(!new)>(rows: seq<E>, keyOf: E -> string, id: string): (r: seq<E>)
    ensures forall x :: x in r <==> x in rows && keyOf(x) != id
    ensures |r| <= |rows|
  {
    if rows == [] then []
    else (if keyOf(rows[0]) == id then [] else [rows[0]]) + Without(rows[1..], keyOf, id)
  }

  /** The database's constraint check always rejects a second row with the same key. */
  ghost predicate ChecksKeys<E(!new)>(verdict: (seq<E>, E) -> Option<string>, keyOf: E -> string) {
    forall rows: seq<E>, e: E :: IndexOfKey(rows, keyOf, keyOf(e)).Some? ==> verdict(rows, e).Some?
  }

  /** The text of the ValueError raised by `get` for an absent key. */
  function NotFoundMessage(modelName: string, id: string): string {
    modelName + " with id " + id + " not found."
  }

  /** The outcome of `get`: the row with that key, or the not-found ValueError. */
  function Lookup<E(!new)>(rows: seq<E>, keyOf: E -> string, modelName: string, id: string): (r: Result<E, Exc>)
    ensures r.Ok? <==> exists i :: 0 <= i < |rows| && keyOf(rows[i]) == id
    ensures r.Ok? ==> r.value in rows && keyOf(r.value) == id
    ensures r.Err? ==> r.error == ValueError(NotFoundMessage(modelName, id))
  {
    match IndexOfKey(rows, keyOf, id)
    case Some(i) => Ok(rows[i])
    case None => Err(ValueError(NotFoundMessage(modelName, id)))
  }

  /** The first constraint violation met when the rows of `batch` are inserted one after
      another next to `rows`, as a single transaction does. */
  function BatchVerdict<E>(verdict: (seq<E>, E) -> Option<string>, rows: seq<E>, batch: seq<E>): Option<string>
    decreases |batch|
  {
    if batch == [] then None
    else match verdict(rows, batch[0])
      case Some(orig) => Some(orig)
      case None => BatchVerdict(verdict, rows + [batch[0]], batch[1..])
  }

  /** A merged row replaces the row with its key, or is appended when there is none. */
  function Merged<E(!new)>(rows: seq<E>, keyOf: E -> string, obj: E): (r: seq<E>)
    requires KeysUnique(rows, keyOf)
    ensures KeysUnique(r, keyOf)
    ensures obj in r
    ensures forall x :: x in r ==> x == obj || (x in rows && keyOf(x) != keyOf(obj))
    ensures forall x :: x in rows && keyOf(x) != keyOf(obj) ==> x in r
    ensures forall i :: 0 <= i < |rows| && keyOf(rows[i]) == keyOf(obj) ==> r == rows[i := obj]
    ensures (forall i :: 0 <= i < |rows| ==> keyOf(rows[i]) != keyOf(obj)) ==> r == rows + [obj]
  {
    match IndexOfKey(rows, keyOf, keyOf(obj))
    case Some(i) =>
      ReplaceAtKey(rows, keyOf, i, obj);
      rows[i := obj]
    case None => rows + [obj]
  }

  lemma ReplaceAtKey<E(!new)>(rows: seq<E>, keyOf: E -> string, i: nat, obj: E)
    requires i < |rows| && keyOf(rows[i]) == keyOf(obj)
    requires KeysUnique(rows, keyOf)
    ensures obj in rows[i := obj]
    ensures forall x :: x in rows[i := obj] ==> x == obj || (x in rows && keyOf(x) != keyOf(obj))
    ensures forall x :: x in rows && keyOf(x) != keyOf(obj) ==> x in rows[i := obj]
    ensures forall j :: 0 <= j < |rows| && keyOf(rows[j]) == keyOf(obj) ==> j == i
  {
    var r := rows[i := obj];
    assert r[i] == obj;
    forall x | x in r && x != obj ensures x in rows && keyOf(x) != keyOf(obj) {
      var k :| 0 <= k < |r| && r[k] == x;
      assert k != i && rows[k] == x;
    }
    forall x | x in rows && keyOf(x) != keyOf(obj) ensures x in r {
      var k :| 0 <= k < |rows| && rows[k] == x;
      assert k != i && r[k] == x;
    }
  }

  // ---------------------------------------------------------------------------
  // Integrity error messages

  /** `_parse_integrity_error`: the driver's message after its last ':', without newlines,
      stripped and split on '.'; with two or more pieces the last two name the column and
      the table, otherwise a generic message. */
  function ParseIntegrityError(orig: string): (msg: string)
  {
    var tail := Text.PyStrip(Text.RemoveChar(Text.AfterLast(orig, ":"), '\n'));
    var parts := Text.Split(tail, ".");
    if |parts| >= 2 then
      "Duplicate entry for " + parts[|parts| - 1] + " in " + parts[|parts| - 2] + ". Choose another value."
    else
      GenericIntegrityMessage
  }

  const GenericIntegrityMessage := "Integrity error while processing your request."

  /** A driver message ending in ": <table>.<column>" names that column and table. */
  lemma ParseQualifiedColumn(prefix: string, table: string, column: string)
    requires '.' !in table && '.' !in column && ':' !in table && ':' !in column
    requires '\n' !in table && '\n' !in column
    requires |table| > 0 && table[0] !in Text.PyWhitespace
    requires |column| > 0 && column[|column| - 1] !in Text.PyWhitespace
    ensures ParseIntegrityError(prefix + ": " + table + "." + column)
         == "Duplicate entry for " + column + " in " + table + ". Choose another value."
  {
    var x := table + "." + column;
    var b := " " + x;
    var orig := prefix + ": " + table + "." + column;
    assert orig == prefix + [':'] + b;
    Text.AfterLastChar(prefix, ':', b);
    assert Text.AfterLast(orig, ":") == b;
    assert Text.RemoveChar(b, '\n') == b;
    Text.StripLeadingBlank(x);
    assert Text.PyStrip(b) == x;
    Text.SplitAtChar(table, '.', column);
    assert Text.Split(x, ".") == [table, column];
  }

  /** Without a '.' anywhere in the driver's message the generic message is used. */
  lemma ParseWithoutDot(orig: string)
    requires '.' !in orig
    ensures ParseIntegrityError(orig) == GenericIntegrityMessage
  {
    var after := Text.AfterLast(orig, ":");
    Text.AfterLastChars(orig, ":");
    var tail := Text.PyStrip(Text.RemoveChar(after, '\n'));
    assert '.' !in tail;
    Text.SplitNoChar(tail, '.');
  }

  /** A message with no ':' and one '.' is split on that '.': the table part is everything
      before it (for MySQL's "Duplicate entry 'v' for key 't.c'" that is the whole text up to
      the dot, quote included). */
  lemma ParseWithoutColon(table: string, column: string)
    requires ':' !in table && ':' !in column && '.' !in table && '.' !in column
    requires '\n' !in table && '\n' !in column
    requires |table| > 0 && table[0] !in Text.PyWhitespace
    requires |column| > 0 && column[|column| - 1] !in Text.PyWhitespace
    ensures ParseIntegrityError(table + "." + column)
         == "Duplicate entry for " + column + " in " + table + ". Choose another value."
  {
    var orig := table + "." + column;
    assert ':' !in orig && '\n' !in orig;
    Text.SplitNoChar(orig, ':');
    assert orig[0] == table[0] && orig[|orig| - 1] == column[|column| - 1];
    assert Text.TrimStart(orig, Text.PyWhitespace) == 0;
    assert Text.TrimEnd(orig, Text.PyWhitespace) == |orig|;
    assert orig[0..|orig|] == orig;
    assert Text.PyStrip(Text.RemoveChar(Text.AfterLast(orig, ":"), '\n')) == orig;
    Text.SplitAtChar(table, '.', column);
  }

  // ---------------------------------------------------------------------------
  // The repository object

  class BaseRepository<E(==,!new)> {
    /** `self.model.__name__`, used in the not-found message. */
    const modelName: string
    const keyOf: E -> string
    /** The database's verdict on inserting a row next to the others: the text of the
        IntegrityError the driver raises, or None when every constraint holds. */
    const verdict: (seq<E>, E) -> Option<string>
    /** The committed rows of the table. */
    var rows: seq<E>
    /** How many times `_refresh_db` replaced the session after a rollback. */
    var sessionRenewals: nat

    ghost predicate Valid()
      reads this
    {
      KeysUnique(rows, keyOf) && ChecksKeys(verdict, keyOf)
    }

    constructor (modelName: string, keyOf: E -> string, verdict: (seq<E>, E) -> Option<string>)
      requires ChecksKeys(verdict, keyOf)
      ensures Valid()
      ensures this.modelName == modelName && this.keyOf == keyOf && this.verdict == verdict
      ensures rows == [] && sessionRenewals == 0
    {
      this.modelName := modelName;
      this.keyOf := keyOf;
      this.verdict := verdict;
      rows := [];
      sessionRenewals := 0;
    }

    /** `get`: the row with that primary key, or ValueError "<Model> with id <id> not found." */
    method Get(id: string) returns (r: Result<E, Exc>)
      ensures r == Lookup(rows, keyOf, modelName, id)
    {
      r := Lookup(rows, keyOf, modelName, id);
    }

    /** `get_all`: every stored row ([] for an empty table). */
    method GetAll() returns (r: seq<E>)
      ensures r == rows
    {
      r := rows;
    }

    /** `create`: insert and commit, or roll back, renew the session and raise the parsed
        ValueError, leaving the table as it was. */
    method Create(obj: E) returns (r: Result<E, Exc>)
      requires Valid()
      modifies this
      ensures Valid()
      ensures match old(verdict(rows, obj))
        case None => rows == old(rows) + [obj] && r == Ok(obj) && sessionRenewals == old(sessionRenewals)
        case Some(orig) => rows == old(rows) && r == Err(ValueError(ParseIntegrityError(orig)))
                           && sessionRenewals == old(sessionRenewals) + 1
    {
      match verdict(rows, obj)
      case Some(orig) =>
        sessionRenewals := sessionRenewals + 1;
        r := Err(ValueError(ParseIntegrityError(orig)));
      case None =>
        AppendKeepsKeysUnique(rows, obj);
        rows := rows + [obj];
        r := Ok(obj);
    }

    /** `create_many`: all rows are committed together or, at the first violation, none. */
    method CreateMany(objs: seq<E>) returns (r: Result<seq<E>, Exc>)
      requires Valid()
      modifies this
      ensures Valid()
      ensures match old(BatchVerdict(verdict, rows, objs))
        case None => rows == old(rows) + objs && r == Ok(objs) && sessionRenewals == old(sessionRenewals)
        case Some(orig) => rows == old(rows) && r == Err(ValueError(ParseIntegrityError(orig)))
                           && sessionRenewals == old(sessionRenewals) + 1
    {
      var staged := rows;
      var i := 0;
      while i < |objs|
        invariant 0 <= i <= |objs|
        invariant rows == old(rows) && sessionRenewals == old(sessionRenewals)
        invariant staged == rows + objs[..i]
        invariant KeysUnique(staged, keyOf)
        invariant BatchVerdict(verdict, rows, objs) == BatchVerdict(verdict, staged, objs[i..])
      {
        assert objs[i..] == [objs[i]] + objs[i + 1..];
        match verdict(staged, objs[i])
        case Some(orig) =>
          sessionRenewals := sessionRenewals + 1;
          r := Err(ValueError(ParseIntegrityError(orig)));
          return;
        case None =>
          AppendKeepsKeysUnique(staged, objs[i]);
          staged := staged + [objs[i]];
          assert objs[..i + 1] == objs[..i] + [objs[i]];
          i := i + 1;
      }
      assert objs[..i] == objs;
      rows := staged;
      r := Ok(objs);
    }

    /** `update` (`Session.merge`): the row replaces the stored row with its key, or is
        inserted when there is none; a violation rolls back as in `create`. */
    method Update(obj: E) returns (r: Result<E, Exc>)
      requires Valid()
      modifies this
      ensures Valid()
      ensures match old(verdict(Without(rows, keyOf, keyOf(obj)), obj))
        case None => rows == old(Merged(rows, keyOf, obj)) && r == Ok(obj)
                     && sessionRenewals == old(sessionRenewals)
        case Some(orig) => rows == old(rows) && r == Err(ValueError(ParseIntegrityError(orig)))
                           && sessionRenewals == old(sessionRenewals) + 1
    {
      match verdict(Without(rows, keyOf, keyOf(obj)), obj)
      case Some(orig) =>
        sessionRenewals := sessionRenewals + 1;
        r := Err(ValueError(ParseIntegrityError(orig)));
      case None =>
        rows := Merged(rows, keyOf, obj);
        r := Ok(obj);
    }

    /** `delete`: `get` first (so an absent key raises and removes nothing), then remove. */
    method Delete(id: string) returns (r: Result<(), Exc>)
      requires Valid()
      modifies this
      ensures Valid()
      ensures sessionRenewals == old(sessionRenewals)
      ensures match old(Lookup(rows, keyOf, modelName, id))
        case Ok(_) => rows == old(Without(rows, keyOf, id)) && r == Ok(())
        case Err(e) => rows == old(rows) && r == Err(e)
    {
      var found := Get(id);
      match found
      case Err(e) =>
        r := Err(e);
      case Ok(_) =>
        WithoutKeepsKeysUnique(rows, keyOf, id);
        rows := Without(rows, keyOf, id);
        r := Ok(());
    }

    lemma AppendKeepsKeysUnique(rs: seq<E>, obj: E)
      requires KeysUnique(rs, keyOf) && ChecksKeys(verdict, keyOf)
      requires verdict(rs, obj).None?
      ensures KeysUnique(rs + [obj], keyOf)
    {
      assert IndexOfKey(rs, keyOf, keyOf(obj)).None?;
    }
  }

  lemma {:induction false} WithoutKeepsKeysUnique<E(!new)>(rows: seq<E>, keyOf: E -> string, id: string)
    requires KeysUnique(rows, keyOf)
    ensures KeysUnique(Without(rows, keyOf, id), keyOf)
    decreases |rows|
  {
    if rows != [] {
      WithoutKeepsKeysUnique(rows[1..], keyOf, id);
      var tail := Without(rows[1..], keyOf, id);
      assert forall x :: x in tail ==> keyOf(x) != keyOf(rows[0]) by {
        forall x | x in tail ensures keyOf(x) != keyOf(rows[0]) {
          var k :| 0 <= k < |rows[1..]| && rows[1..][k] == x;
          assert rows[k + 1] == x;
        }
      }
      var r := Without(rows, keyOf, id);
      if keyOf(rows[0]) != id {
        assert r == [rows[0]] + tail;
        forall i, j | 0 <= i < j < |r| ensures keyOf(r[i]) != keyOf(r[j]) {
          if i == 0 {
            assert r[j] == tail[j - 1];
            assert r[j] in tail;
          } else {
            assert r[i] == tail[i - 1] && r[j] == tail[j - 1];
          }
        }
      } else {
        assert r == tail;
      }
    }
  }

}
