/**
  Migration 0037: stored email addresses are lower-cased and trimmed, unless two
  accounts would then share one, and account addresses become unique.
 */
module EmailMigration {
  import opened Wrappers
  import opened Text

  datatype Row = Row(id: nat, email: Option<string>)

  /** Rows in primary-key order. */
  type Table = seq<Row>

  predicate PrimaryKey(t: Table) {
    forall i, j :: 0 <= i < j < |t| ==> t[i].id < t[j].id
  }

  /** `LOWER(TRIM(email))`. */
  function Normal(email: string): string {
    Lower(Trim(email, SpacesOnly))
  }

  /** `normalizeEmail`, which every lookup applies first. */
  function NormalizeEmail(email: string): string {
    Lower(Trim(email, AllWhiteSpace))
  }

  predicate HasNormal(r: Row, norm: string) {
    r.email.Some? && Normal(r.email.value) == norm
  }

  function IdsWithNormal(t: Table, norm: string): seq<nat> {
    if t == [] then [] else (if HasNormal(t[0], norm) then [t[0].id] else []) + IdsWithNormal(t[1..], norm)
  }

  /** The `GROUP BY ... HAVING COUNT(*) > 1` query: each normal form that two rows share, once. */
  function CollidingNormals(t: Table): seq<string> {
    if t == [] then [] else
      var rest := CollidingNormals(t[1..]);
      if t[0].email.Some? && |IdsWithNormal(t, Normal(t[0].email.value))| == 2
      then [Normal(t[0].email.value)] + rest else rest
  }

  /** Another account normalises to the same address. */
  predicate Collides(t: Table, i: int)
    requires 0 <= i < |t|
  {
    t[i].email.Some? && exists j :: 0 <= j < |t| && j != i && HasNormal(t[j], Normal(t[i].email.value))
  }

  function BackfilledRow(r: Row): Row {
    if r.email.Some? then r.(email := Some(Normal(r.email.value))) else r
  }

  function Backfill(t: Table): (r: Table)
    ensures |r| == |t| && forall i :: 0 <= i < |t| ==> r[i] == BackfilledRow(t[i])
  {
    if t == [] then [] else [BackfilledRow(t[0])] + Backfill(t[1..])
  }

  /** `account_email_unique`: NULLs are distinct. */
  predicate UniqueEmails(t: Table) {
    forall i, j :: 0 <= i < j < |t| && t[i].email.Some? ==> t[i].email != t[j].email
  }

  const TABLES := ["account", "account_application", "account_invitation"]

  datatype Outcome = Aborted(idGroups: seq<seq<nat>>) | Done

  class Database {
    var tables: map<string, Table>
    var accountEmailUnique: bool

    ghost predicate Valid()
      reads this
    {
      tables.Keys == {"account", "account_application", "account_invitation"} && PrimaryKey(tables["account"])
    }

    constructor (account: Table, application: Table, invitation: Table)
      requires PrimaryKey(account)
      ensures Valid() && !accountEmailUnique
      ensures tables == map["account" := account, "account_application" := application,
              "account_invitation" := invitation]
    {
      tables := map["account" := account, "account_application" := application, "account_invitation" := invitation];
      accountEmailUnique := false;
    }

    /** `UPDATE ... WHERE email IS NOT NULL AND email <> LOWER(TRIM(email))`. */
    method BackfillTable(name: string)
      requires name in tables
      modifies this`tables
      ensures tables == old(tables)[name := Backfill(old(tables)[name])]
    {
      var rows := tables[name];
      for i := 0 to |rows|
        invariant |rows| == |tables[name]| && tables == old(tables)
        invariant forall k :: 0 <= k < i ==> rows[k] == BackfilledRow(tables[name][k])
        invariant forall k :: i <= k < |rows| ==> rows[k] == tables[name][k]
      {
        var r := rows[i];
        if r.email.Some? && r.email.value != Normal(r.email.value) {
          rows := rows[i := r.(email := Some(Normal(r.email.value)))];
        }
      }
      assert rows == Backfill(tables[name]);
      tables := tables[name := rows];
    }

    method Up() returns (outcome: Outcome)
      requires Valid()
      modifies this
      ensures Valid()
      ensures outcome.Aborted? <==> exists i :: 0 <= i < |old(tables)["account"]| && Collides(old(tables)["account"], i)
      ensures outcome.Aborted? ==> tables == old(tables) && accountEmailUnique == old(accountEmailUnique)
      ensures outcome.Aborted? ==>
                forall i :: 0 <= i < |tables["account"]| ==>
                  (Collides(tables["account"], i) <==>
                     exists g :: g in outcome.idGroups && tables["account"][i].id in g)
      ensures outcome.Done? ==> accountEmailUnique && UniqueEmails(tables["account"])
      ensures outcome.Done? ==> forall name :: name in tables ==> tables[name] == Backfill(old(tables)[name])
    {
      var account := tables["account"];
      var collisions := CollidingNormals(account);
      CollisionsAreFound(account);
      if |collisions| > 0 {
        var idGroups := [];
        for i := 0 to |collisions|
          invariant |idGroups| == i && forall k :: 0 <= k < i ==> idGroups[k] == IdsWithNormal(account, collisions[k])
        {
          idGroups := idGroups + [IdsWithNormal(account, collisions[i])];
        }
        GroupsNameTheCollisions(account, collisions, idGroups);
        return Aborted(idGroups);
      }
      BackfillTables();
      BackfillIsUnique(account);
      accountEmailUnique := true;
      return Done;
    }

    /** Step 2: every table that stores an address. */
    method BackfillTables()
      requires Valid()
      modifies this`tables
      ensures tables == map name | name in old(tables) :: Backfill(old(tables)[name])
    {
      for i := 0 to |TABLES|
        invariant tables.Keys == old(tables).Keys
        invariant forall k :: 0 <= k < i ==> tables[TABLES[k]] == Backfill(old(tables)[TABLES[k]])
        invariant forall k :: i <= k < |TABLES| ==> tables[TABLES[k]] == old(tables)[TABLES[k]]
      {
        BackfillTable(TABLES[i]);
      }
      forall name | name in tables ensures tables[name] == Backfill(old(tables)[name]) {
        assert name == TABLES[0] || name == TABLES[1] || name == TABLES[2];
      }
    }
  }

  // ----- the pre-check -----

  lemma {:induction false} IdsIff(t: Table, norm: string, id: nat)
    ensures id in IdsWithNormal(t, norm) <==> exists i :: 0 <= i < |t| && t[i].id == id && HasNormal(t[i], norm)
  {
    if t != [] {
      IdsIff(t[1..], norm, id);
      if i :| 0 <= i < |t[1..]| && t[1..][i].id == id && HasNormal(t[1..][i], norm) {
        assert t[i + 1] == t[1..][i];
      }
      if i :| 0 <= i < |t| && t[i].id == id && HasNormal(t[i], norm) && i > 0 {
        assert t[1..][i - 1] == t[i];
      }
    }
  }

  lemma {:induction false} NoneIff(t: Table, norm: string)
    ensures IdsWithNormal(t, norm) == [] <==> forall i :: 0 <= i < |t| ==> !HasNormal(t[i], norm)
  {
    if t != [] {
      NoneIff(t[1..], norm);
      assert forall i :: 0 < i < |t| ==> t[i] == t[1..][i - 1];
    }
  }

  /** Two rows share a normal form exactly when it selects two ids. */
  lemma {:induction false} SharedIff(t: Table, norm: string)
    ensures |IdsWithNormal(t, norm)| >= 2 <==>
            exists i, j :: 0 <= i < j < |t| && HasNormal(t[i], norm) && HasNormal(t[j], norm)
  {
    if t != [] {
      SharedIff(t[1..], norm);
      NoneIff(t[1..], norm);
      if i, j :| 0 <= i < j < |t[1..]| && HasNormal(t[1..][i], norm) && HasNormal(t[1..][j], norm) {
        assert HasNormal(t[i + 1], norm) && HasNormal(t[j + 1], norm);
      }
      if i, j :| 0 <= i < j < |t| && HasNormal(t[i], norm) && HasNormal(t[j], norm) {
        assert HasNormal(t[1..][j - 1], norm) && (i > 0 ==> HasNormal(t[1..][i - 1], norm));
      }
      if HasNormal(t[0], norm) && IdsWithNormal(t[1..], norm) != [] {
        var j :| 0 <= j < |t[1..]| && HasNormal(t[1..][j], norm);
        assert HasNormal(t[j + 1], norm);
      }
    }
  }

  /** The grouping query lists each shared normal form, and lists it once. */
  lemma {:induction false} CollidingIff(t: Table, norm: string)
    ensures norm in CollidingNormals(t) <==> |IdsWithNormal(t, norm)| >= 2
    ensures multiset(CollidingNormals(t))[norm] <= 1
  {
    if t != [] {
      CollidingIff(t[1..], norm);
      var rest := CollidingNormals(t[1..]);
      assert norm in rest <==> norm in multiset(rest);
      assert CollidingNormals(t) == rest || CollidingNormals(t) == [Normal(t[0].email.value)] + rest;
    }
  }

  lemma {:induction false} CollisionShares(t: Table, i: nat)
    requires i < |t| && t[i].email.Some?
    ensures Collides(t, i) <==> Normal(t[i].email.value) in CollidingNormals(t)
  {
    var norm := Normal(t[i].email.value);
    CollidingIff(t, norm);
    SharedIff(t, norm);
    assert HasNormal(t[i], norm);
  }

  /** The pre-check aborts exactly when some account collides with another. */
  lemma {:induction false} CollisionsAreFound(t: Table)
    ensures CollidingNormals(t) != [] <==> exists i :: 0 <= i < |t| && Collides(t, i)
  {
    if CollidingNormals(t) != [] {
      var norm := CollidingNormals(t)[0];
      CollidingIff(t, norm);
      SharedIff(t, norm);
      var i, j :| 0 <= i < j < |t| && HasNormal(t[i], norm) && HasNormal(t[j], norm);
      assert Collides(t, i);
    }
    if i :| 0 <= i < |t| && Collides(t, i) {
      CollisionShares(t, i);
    }
  }

  /** The reported groups name exactly the accounts that collide. */
  lemma {:induction false} GroupsNameTheCollisions(t: Table, norms: seq<string>, groups: seq<seq<nat>>)
    requires PrimaryKey(t) && norms == CollidingNormals(t)
    requires |groups| == |norms| && forall k :: 0 <= k < |norms| ==> groups[k] == IdsWithNormal(t, norms[k])
    ensures forall i :: 0 <= i < |t| ==> (Collides(t, i) <==> exists g :: g in groups && t[i].id in g)
  {
    forall i | 0 <= i < |t| ensures Collides(t, i) <==> exists g :: g in groups && t[i].id in g {
      if Collides(t, i) {
        CollisionShares(t, i);
        var k :| 0 <= k < |norms| && norms[k] == Normal(t[i].email.value);
        IdInGroupIff(t, norms[k], i);
        assert groups[k] in groups;
      }
      if g :| g in groups && t[i].id in g {
        var k :| 0 <= k < |groups| && groups[k] == g;
        IdInGroupIff(t, norms[k], i);
        CollisionShares(t, i);
      }
    }
  }

  lemma {:induction false} IdInGroupIff(t: Table, norm: string, i: nat)
    requires PrimaryKey(t) && i < |t|
    ensures t[i].id in IdsWithNormal(t, norm) <==> HasNormal(t[i], norm)
  {
    IdsIff(t, norm, t[i].id);
    if at :| 0 <= at < |t| && t[at].id == t[i].id && HasNormal(t[at], norm) {
      assert at == i;
    }
  }

  lemma {:induction false} BackfillIsUnique(t: Table)
    requires forall i :: 0 <= i < |t| ==> !Collides(t, i)
    ensures UniqueEmails(Backfill(t))
  {
    var after := Backfill(t);
    forall i, j | 0 <= i < j < |t| && after[i].email.Some? ensures after[i].email != after[j].email {
      assert !Collides(t, i);
      assert !HasNormal(t[j], Normal(t[i].email.value));
    }
  }

  // ----- normal forms -----

  /** A normal form has no capital and no space at its ends, and is the address but for case and such spaces. */
  lemma {:induction false} NormalIsPlain(email: string)
    ensures var norm := Normal(email);
            && CaseVariants(Trim(email, SpacesOnly), norm) && IsTrimmed(norm, SpacesOnly)
            && forall i :: 0 <= i < |norm| ==> !IsCapital(norm[i])
  {
    var t := Trim(email, SpacesOnly);
    TrimIsTrimmed(email, SpacesOnly);
    LowerKeepsTrimmed(t, SpacesOnly);
    LowerIsVariant(t);
  }

  /** The two addresses are there and differ in the case of letters and in outer spaces at most. */
  ghost predicate SameAddress(r: Row, s: Row) {
    && r.email.Some? && s.email.Some?
    && CaseVariants(Trim(r.email.value, SpacesOnly), Trim(s.email.value, SpacesOnly))
  }

  /** What the pre-check looks for: two accounts with the same address but for case and outer spaces. */
  lemma {:induction false} CollidesIff(t: Table, i: nat)
    requires i < |t|
    ensures Collides(t, i) <==> exists j :: 0 <= j < |t| && j != i && SameAddress(t[i], t[j])
  {
    if t[i].email.Some? {
      forall j | 0 <= j < |t| ensures HasNormal(t[j], Normal(t[i].email.value)) <==> SameAddress(t[i], t[j]) {
        if t[j].email.Some? {
          LowerIff(Trim(t[i].email.value, SpacesOnly), Trim(t[j].email.value, SpacesOnly));
        }
      }
    }
  }

  /** Normalising twice is normalising once. */
  lemma {:induction false} NormalIsIdempotent(email: string)
    ensures Normal(Normal(email)) == Normal(email)
  {
    var t := Trim(email, SpacesOnly);
    TrimIsTrimmed(email, SpacesOnly);
    LowerKeepsTrimmed(t, SpacesOnly);
    TrimOfTrimmed(Lower(t), SpacesOnly);
  }

  /** After the backfill a lookup by a normal form finds the rows that it denoted before, and no others. */
  lemma {:induction false} LookupFindsTheSameRows(t: Table, address: string, i: nat)
    requires i < |t| && Normal(address) == address
    ensures Backfill(t)[i].email == Some(address) <==> HasNormal(t[i], address)
    ensures Backfill(t)[i].id == t[i].id
    ensures Backfill(t)[i].email.Some? ==> Normal(Backfill(t)[i].email.value) == Backfill(t)[i].email.value
  {
    if t[i].email.Some? {
      NormalIsIdempotent(t[i].email.value);
    }
  }

  /** Every lookup is by such an address: what it looks up is its own normal form. */
  lemma {:induction false} LookupsAreNormal(email: string)
    ensures Normal(NormalizeEmail(email)) == NormalizeEmail(email)
  {
    var t := Trim(email, AllWhiteSpace);
    TrimIsTrimmed(email, AllWhiteSpace);
    LowerKeepsTrimmed(t, AllWhiteSpace);
    TrimmedOfSpaces(Lower(t));
    TrimOfTrimmed(Lower(t), SpacesOnly);
  }

  lemma {:induction false} TrimmedOfSpaces(s: string)
    requires IsTrimmed(s, AllWhiteSpace)
    ensures IsTrimmed(s, SpacesOnly)
  {}

  /** With no collision to abort on, that lookup finds one account at most. */
  lemma {:induction false} LookupIsUnambiguous(t: Table, address: string, i: nat, j: nat)
    requires forall k :: 0 <= k < |t| ==> !Collides(t, k)
    requires i < |t| && j < |t| && Backfill(t)[i].email == Some(address) && Backfill(t)[j].email == Some(address)
    ensures i == j
  {
    BackfillIsUnique(t);
  }

  /** A second run changes no row, and finds the collisions the first one found: none, if it got through. */
  lemma {:induction false} SecondRunChangesNothing(t: Table)
    ensures Backfill(Backfill(t)) == Backfill(t)
    ensures forall i :: 0 <= i < |t| ==> (Collides(Backfill(t), i) <==> Collides(t, i))
  {
    var after := Backfill(t);
    forall i | 0 <= i < |t| ensures BackfilledRow(after[i]) == after[i] {
      if t[i].email.Some? { NormalIsIdempotent(t[i].email.value); }
    }
    forall i, norm: string | 0 <= i < |t| ensures HasNormal(after[i], norm) <==> HasNormal(t[i], norm) {
      if t[i].email.Some? { NormalIsIdempotent(t[i].email.value); }
    }
    forall i | 0 <= i < |t| ensures Collides(after, i) <==> Collides(t, i) {
      if t[i].email.Some? {
        NormalIsIdempotent(t[i].email.value);
        if Collides(t, i) {
          var j :| 0 <= j < |t| && j != i && HasNormal(t[j], Normal(t[i].email.value));
          assert HasNormal(after[j], Normal(after[i].email.value));
        }
      }
    }
  }

  // ----- SQL and JavaScript agree except on other white space -----

  /** Removing spaces first makes no difference to removing all white space. */
  lemma {:induction false} TrimWithin(s: string)
    ensures Trim(Trim(s, SpacesOnly), AllWhiteSpace) == Trim(s, AllWhiteSpace)
  {
    var t := Trim(s, SpacesOnly);
    var u, v := TrimSplits(s, SpacesOnly);
    var u', v' := TrimSplits(t, AllWhiteSpace);
    var r := Trim(t, AllWhiteSpace);
    TrimIsTrimmed(t, AllWhiteSpace);
    assert s == (u + u') + r + (v' + v);
    TrimIsUnique(u + u', r, v' + v, AllWhiteSpace);
  }

  /** The backfilled form is the one lookups use exactly when no other white space is left at its ends. */
  lemma {:induction false} NormalFormsAgreeIff(email: string)
    ensures Normal(email) == NormalizeEmail(email) <==> IsTrimmed(Trim(email, SpacesOnly), AllWhiteSpace)
  {
    var t := Trim(email, SpacesOnly);
    TrimWithin(email);
    TrimOfTrimmed(t, AllWhiteSpace);
    TrimStartProperties(t, AllWhiteSpace);
    TrimEndProperties(TrimStart(t, AllWhiteSpace), AllWhiteSpace);
    if Normal(email) == NormalizeEmail(email) {
      assert |Trim(t, AllWhiteSpace)| == |t|;
      assert Trim(t, AllWhiteSpace) == t;
    }
  }

  /** A tab before an address survives the backfill, and every lookup of it misses the row. */
  lemma {:induction false} TabIsKept()
    ensures Normal("\ta@b") == "\ta@b" && NormalizeEmail("\ta@b") == "a@b"
  {
    var email := "\ta@b";
    assert IsTrimmed(email, SpacesOnly) && IsTrimmed("a@b", AllWhiteSpace);
    TrimOfTrimmed(email, SpacesOnly);
    assert ['\t'] + "a@b" + [] == email;
    TrimIsUnique(['\t'], "a@b", [], AllWhiteSpace);
    LowerAt(email);
    LowerAt("a@b");
  }

  lemma {:induction false} LowerAt(s: string)
    requires forall i :: 0 <= i < |s| ==> LowerChar(s[i]) == s[i]
    ensures Lower(s) == s
  {
    if s != [] {
      LowerAt(s[1..]);
    }
  }
}
