/**
  The check that the runtime role cannot SET ROLE, in any number of steps, to a role holding a
  dangerous attribute: a `WITH RECURSIVE ... UNION` query over the role membership table, which may
  hold cycles, evaluated with a working table as section 7.8.2 of the PostgreSQL manual describes.
 */
module RoleSafety {
  type Oid = nat

  /** A row of `pg_auth_members`: `member` belongs to `role`. */
  datatype Membership = Membership(role: Oid, member: Oid, setOption: bool)

  /** The attributes of a row of `pg_roles` that the query reads. */
  datatype Attributes = Attributes(superuser: bool, createDb: bool, createRole: bool, replication: bool, bypassRls: bool)

  predicate Forbidden(r: Attributes) {
    r.superuser || r.createDb || r.createRole || r.replication || r.bypassRls
  }

  // ---- What the query is for ----

  predicate Edge(members: set<Membership>, a: Oid, b: Oid) {
    Membership(b, a, true) in members
  }

  /** At least one step, every step a membership with the SET option. */
  ghost predicate IsPath(members: set<Membership>, path: seq<Oid>) {
    |path| >= 2 && forall i :: 0 <= i < |path| - 1 ==> Edge(members, path[i], path[i + 1])
  }

  ghost predicate CanBecome(members: set<Membership>, from: Oid, to: Oid) {
    exists path :: IsPath(members, path) && path[0] == from && path[|path| - 1] == to
  }

  // ---- The query ----

  /** One evaluation of the recursive term, with `working` as the self-reference. */
  function Successors(members: set<Membership>, working: set<Oid>): set<Oid> {
    set m | m in members && m.setOption && m.member in working :: m.role
  }

  function AllRoles(members: set<Membership>): set<Oid> {
    set m | m in members :: m.role
  }

  ghost predicate Closed(members: set<Membership>, roles: set<Oid>) {
    forall a, b :: a in roles && Edge(members, a, b) ==> b in roles
  }

  lemma StepExtendsPath(members: set<Membership>, from: Oid, a: Oid, b: Oid)
    requires (a == from || CanBecome(members, from, a)) && Edge(members, a, b)
    ensures CanBecome(members, from, b)
  {
    if CanBecome(members, from, a) {
      var path :| IsPath(members, path) && path[0] == from && path[|path| - 1] == a;
      var longer := path + [b];
      forall i | 0 <= i < |longer| - 1 ensures Edge(members, longer[i], longer[i + 1]) {
        if i < |path| - 1 { assert Edge(members, path[i], path[i + 1]); }
      }
      assert longer[0] == from && longer[|longer| - 1] == b;
    } else {
      assert IsPath(members, [from, b]);
    }
  }

  lemma {:induction false} PathStaysInside(members: set<Membership>, path: seq<Oid>, roles: set<Oid>)
    requires IsPath(members, path) && Closed(members, roles)
    requires forall b :: Edge(members, path[0], b) ==> b in roles
    ensures path[|path| - 1] in roles
  {
    assert Edge(members, path[0], path[1]);
    if |path| > 2 {
      var rest := path[1..];
      forall i | 0 <= i < |rest| - 1 ensures Edge(members, rest[i], rest[i + 1]) {
        assert Edge(members, path[i + 1], path[i + 2]);
      }
      PathStaysInside(members, rest, roles);
    }
  }

  /** The working-table loop terminates on every membership graph and collects exactly the roles that
      are reachable by one or more memberships with the SET option. */
  method SettableRoles(members: set<Membership>, runtime: Oid) returns (result: set<Oid>)
    ensures forall r :: r in result <==> CanBecome(members, runtime, r)
  {
    result := Successors(members, {runtime});
    var working := result;
    forall r | r in result ensures CanBecome(members, runtime, r) {
      StepExtendsPath(members, runtime, runtime, r);
    }
    while working != {}
      invariant working <= result <= AllRoles(members)
      invariant forall r :: r in result ==> CanBecome(members, runtime, r)
      invariant Successors(members, {runtime}) <= result
      invariant forall a, b :: a in result && a !in working && Edge(members, a, b) ==> b in result
      decreases AllRoles(members) - result, working
    {
      var intermediate := Successors(members, working) - result;
      forall r | r in intermediate ensures CanBecome(members, runtime, r) {
        var m :| m in members && m.setOption && m.member in working && m.role == r;
        StepExtendsPath(members, runtime, m.member, r);
      }
      forall a, b | a in working && Edge(members, a, b) ensures b in result + intermediate {
        assert Membership(b, a, true) in members;
      }
      if intermediate != {} {
        assert AllRoles(members) - (result + intermediate) < AllRoles(members) - result by {
          var r :| r in intermediate;
          assert r in AllRoles(members) - result;
        }
      }
      result := result + intermediate;
      working := intermediate;
    }
    forall r | CanBecome(members, runtime, r) ensures r in result {
      var path :| IsPath(members, path) && path[0] == runtime && path[|path| - 1] == r;
      forall b | Edge(members, runtime, b) ensures b in result {
        assert Membership(b, runtime, true) in members;
      }
      PathStaysInside(members, path, result);
    }
  }

  /** The whole query: true exactly when no chain of SET ROLE memberships leads the runtime role to an
      existing role with a forbidden attribute. */
  method SetRoleAttributesSafe(members: set<Membership>, roles: map<Oid, Attributes>, runtime: Oid) returns (safe: bool)
    ensures safe <==> forall r :: CanBecome(members, runtime, r) && r in roles ==>
      !roles[r].superuser && !roles[r].createDb && !roles[r].createRole && !roles[r].replication && !roles[r].bypassRls
  {
    var settable := SettableRoles(members, runtime);
    safe := !exists r :: r in settable && r in roles && Forbidden(roles[r]);
  }
}
