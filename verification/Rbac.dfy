/**
 Client authorization claims from role, grant and scope rows: exact permissions, each with the widest
 scope that a role both grants it and scopes it with.
 */
module Rbac {
  import opened Names
  import opened Outcomes
  import opened Text

  datatype RoleRow = RoleRow(id: int, tenant: int, name: string, deleted: bool)

  datatype Grant = Grant(role: int, permission: int)

  datatype ScopeRow = ScopeRow(tenant: int, role: int, resource: string, action: string, scopeType: string)

  datatype PermissionRow = PermissionRow(id: int, resource: string, action: string)

  datatype Scope = Self | Team | Department | All

  /** Scopes travel as `ToWire` spells them; `WireReadsBack` says that loses nothing. */
  datatype Authorization = Authorization(
    roles: seq<string>, permissions: seq<string>, permissionScopes: map<string, Scope>,
    resourceScopes: map<string, Scope>)

  datatype Input = Input(tenant: int, roles: seq<RoleRow>, grants: seq<Grant>, scopes: seq<ScopeRow>,
    permissions: seq<PermissionRow>)

  function Rank(s: Scope): nat {
    match s
    case Self => 1
    case Team => 2
    case Department => 3
    case All => 4
  }

  function ToWire(s: Scope): string {
    match s
    case Self => "SELF"
    case Team => "TEAM"
    case Department => "DEPARTMENT"
    case All => "ALL"
  }

  /** The first scope that is spelled so. */
  function Named(name: string, scopes: seq<Scope>): Option<Scope> {
    if scopes == [] then None else if name == ToWire(scopes[0]) then Some(scopes[0]) else Named(name, scopes[1..])
  }

  function ParseLoose(s: string): Option<Scope> {
    Named(ToUpper(Trim(s)), [Self, Team, Department, All])
  }

  lemma WireReadsBack(s: Scope)
    ensures ParseLoose(ToWire(s)) == Some(s)
  {
    assert Trim(ToWire(s)) == ToWire(s) && ToUpper(ToWire(s)) == ToWire(s);
    NamedMeans(ToWire(s));
    SpellingsDiffer();
  }

  function Code(resource: string, action: string): string {
    ToLower(resource + ":" + action)
  }

  /** The code of a permission id; among rows of the same id the last one wins. */
  function CodeOf(permissions: seq<PermissionRow>, id: int): Option<string> {
    if permissions == [] then None
    else
      var last := permissions[|permissions| - 1];
      if last.id == id then Some(Code(last.resource, last.action)) else CodeOf(permissions[..|permissions| - 1], id)
  }

  predicate Effective(row: RoleRow, tenant: int) {
    row.tenant == tenant && !row.deleted
  }

  // ---------------------------------------------------------------- what the claims should be

  ghost predicate EffectiveRole(input: Input, role: int) {
    exists row :: row in input.roles && row.id == role && Effective(row, input.tenant)
  }

  ghost predicate Grants(input: Input, role: int, code: string) {
    EffectiveRole(input, role)
    && exists g :: g in input.grants && g.role == role && CodeOf(input.permissions, g.permission) == Some(code)
  }

  /** A scope row backs a scope of a permission: its own role is effective and grants that permission. */
  ghost predicate Backs(input: Input, row: ScopeRow, code: string, scope: Scope) {
    && row in input.scopes && row.tenant == input.tenant
    && Code(row.resource, row.action) == code && Grants(input, row.role, code)
    && ParseLoose(row.scopeType) == Some(scope)
  }

  ghost predicate Backed(input: Input, code: string, scope: Scope) {
    exists row :: Backs(input, row, code, scope)
  }

  ghost predicate NameIn(input: Input, name: string) {
    exists row :: row in input.roles && Effective(row, input.tenant) && row.name == name
  }

  ghost predicate GrantedBySome(input: Input, code: string) {
    exists role :: Grants(input, role, code)
  }

  ghost predicate WidestBacked(input: Input, code: string, scope: Scope) {
    Backed(input, code, scope) && forall s :: Backed(input, code, s) ==> Rank(s) <= Rank(scope)
  }

  ghost predicate HasScope(input: Input, code: string) {
    exists s :: Backed(input, code, s)
  }

  /** A permission has a scope exactly when some row backs one, and it is the widest backed. */
  ghost predicate ScopesFit(scopes: map<string, Scope>, input: Input) {
    && (forall c :: c in scopes <==> HasScope(input, c))
    && (forall c :: c in scopes ==> WidestBacked(input, c, scopes[c]))
  }

  ghost predicate Describes(a: Authorization, input: Input) {
    && Ascending(a.roles) && (forall n :: n in a.roles <==> NameIn(input, n))
    && Ascending(a.permissions) && (forall c :: c in a.permissions <==> GrantedBySome(input, c))
    && ScopesFit(a.permissionScopes, input)
    && a.resourceScopes == map[]
  }

  // ---------------------------------------------------------------- how they are built

  method MergePermissionScope(best: map<string, Scope>, permission: string, candidate: Scope)
    returns (merged: map<string, Scope>)
    ensures merged.Keys == best.Keys + {permission}
    ensures forall p :: p in best && p != permission ==> merged[p] == best[p]
    ensures Rank(merged[permission]) >= Rank(candidate)
      && (permission in best ==> Rank(merged[permission]) >= Rank(best[permission]))
    ensures merged[permission] == candidate || (permission in best && merged[permission] == best[permission])
  {
    if permission in best {
      merged := if Rank(candidate) > Rank(best[permission]) then best[permission := candidate] else best;
    } else {
      merged := best[permission := candidate];
    }
  }

  function EffectiveIds(input: Input): set<int> {
    set row | row in input.roles && Effective(row, input.tenant) :: row.id
  }

  function GrantsByRole(input: Input): set<(int, string)> {
    set g | g in input.grants && g.role in EffectiveIds(input) && CodeOf(input.permissions, g.permission).Some?
      :: (g.role, CodeOf(input.permissions, g.permission).value)
  }

  lemma GrantsByRoleAre(input: Input, role: int, code: string)
    ensures (role, code) in GrantsByRole(input) <==> Grants(input, role, code)
  {
  }

  function EffectiveNames(roles: seq<RoleRow>, tenant: int): seq<string> {
    if roles == [] then []
    else (if Effective(roles[0], tenant) then [roles[0].name] else []) + EffectiveNames(roles[1..], tenant)
  }

  function GrantedCodes(input: Input, grants: seq<Grant>): seq<string> {
    if grants == [] then []
    else
      (if grants[0].role in EffectiveIds(input) && CodeOf(input.permissions, grants[0].permission).Some?
       then [CodeOf(input.permissions, grants[0].permission).value] else [])
      + GrantedCodes(input, grants[1..])
  }

  ghost predicate BackedWithin(input: Input, n: nat, code: string, scope: Scope)
    requires n <= |input.scopes|
  {
    exists k :: 0 <= k < n && Backs(input, input.scopes[k], code, scope)
  }

  /** The scopes found among the first rows: present where one of them backs a scope, and the widest of those. */
  ghost predicate BestOf(best: map<string, Scope>, input: Input, n: nat)
    requires n <= |input.scopes|
  {
    && (forall c :: c in best ==> BackedWithin(input, n, c, best[c]))
    && (forall k, c, s :: 0 <= k < n && Backs(input, input.scopes[k], c, s) ==> c in best && Rank(s) <= Rank(best[c]))
  }

  /** What a row contributes: its one scope for its one permission, or nothing. */
  function Contribution(input: Input, row: ScopeRow): Option<(string, Scope)> {
    var code := Code(row.resource, row.action);
    if row.tenant == input.tenant && row.role in EffectiveIds(input) && (row.role, code) in GrantsByRole(input)
      && ParseLoose(row.scopeType).Some?
    then Some((code, ParseLoose(row.scopeType).value)) else None
  }

  lemma ContributionBacks(input: Input, row: ScopeRow, code: string, scope: Scope)
    requires row in input.scopes
    ensures Backs(input, row, code, scope) <==> Contribution(input, row) == Some((code, scope))
  {
    GrantsByRoleAre(input, row.role, Code(row.resource, row.action));
  }

  lemma BestSkips(best: map<string, Scope>, input: Input, n: nat)
    requires n < |input.scopes| && BestOf(best, input, n) && Contribution(input, input.scopes[n]).None?
    ensures BestOf(best, input, n + 1)
  {
    forall k, c, s | 0 <= k < n + 1 && Backs(input, input.scopes[k], c, s)
      ensures c in best && Rank(s) <= Rank(best[c])
    {
      ContributionBacks(input, input.scopes[k], c, s);
    }
    forall c | c in best ensures exists k :: 0 <= k < n + 1 && Backs(input, input.scopes[k], c, best[c]) {
      var k :| 0 <= k < n && Backs(input, input.scopes[k], c, best[c]);
    }
  }

  lemma BestMerges(
      best: map<string, Scope>, merged: map<string, Scope>, input: Input, n: nat, code: string, scope: Scope)
    requires n < |input.scopes| && BestOf(best, input, n) && Contribution(input, input.scopes[n]) == Some((code, scope))
    requires merged.Keys == best.Keys + {code} && forall p :: p in best && p != code ==> merged[p] == best[p]
    requires Rank(merged[code]) >= Rank(scope) && (code in best ==> Rank(merged[code]) >= Rank(best[code]))
    requires merged[code] == scope || (code in best && merged[code] == best[code])
    ensures BestOf(merged, input, n + 1)
  {
    ContributionBacks(input, input.scopes[n], code, scope);
    forall k, c, s | 0 <= k < n + 1 && Backs(input, input.scopes[k], c, s)
      ensures c in merged && Rank(s) <= Rank(merged[c])
    {
      if k == n {
        ContributionBacks(input, input.scopes[n], c, s);
      }
    }
    forall c | c in merged ensures BackedWithin(input, n + 1, c, merged[c]) {
      if c in best && merged[c] == best[c] {
        WithinMore(input, n, c, best[c]);
      } else {
        assert Backs(input, input.scopes[n], c, merged[c]);
      }
    }
  }

  lemma WithinMore(input: Input, n: nat, code: string, scope: Scope)
    requires n < |input.scopes| && BackedWithin(input, n, code, scope)
    ensures BackedWithin(input, n + 1, code, scope)
  {
  }

  method BestScopes(input: Input) returns (best: map<string, Scope>)
    ensures BestOf(best, input, |input.scopes|)
  {
    var effective, grantsByRole := EffectiveIds(input), GrantsByRole(input);
    best := map[];
    var i := 0;
    while i < |input.scopes|
      invariant 0 <= i <= |input.scopes|
      invariant BestOf(best, input, i)
    {
      var row := input.scopes[i];
      var code := Code(row.resource, row.action);
      var scope := ParseLoose(row.scopeType);
      if row.tenant != input.tenant || row.role !in effective || (row.role, code) !in grantsByRole || scope.None? {
        BestSkips(best, input, i);
      } else {
        var merged := MergePermissionScope(best, code, scope.value);
        BestMerges(best, merged, input, i, code, scope.value);
        best := merged;
      }
      i := i + 1;
    }
  }

  lemma {:induction false} NamesAre(roles: seq<RoleRow>, tenant: int, name: string)
    ensures name in EffectiveNames(roles, tenant) <==>
      exists row :: row in roles && Effective(row, tenant) && row.name == name
  {
    if roles != [] {
      NamesAre(roles[1..], tenant, name);
      assert roles == [roles[0]] + roles[1..];
    }
  }

  ghost predicate GrantOf(input: Input, g: Grant, code: string) {
    g.role in EffectiveIds(input) && CodeOf(input.permissions, g.permission) == Some(code)
  }

  lemma {:induction false} CodesAre(input: Input, grants: seq<Grant>, code: string)
    ensures code in GrantedCodes(input, grants) <==> exists g :: g in grants && GrantOf(input, g, code)
  {
    if grants != [] {
      CodesAre(input, grants[1..], code);
      assert grants == [grants[0]] + grants[1..];
      if GrantOf(input, grants[0], code) {
        assert grants[0] in grants;
      } else if g :| g in grants && GrantOf(input, g, code) {
        assert g in grants[1..];
      }
    }
  }

  lemma GrantedMeans(input: Input, code: string)
    ensures code in GrantedCodes(input, input.grants) <==> GrantedBySome(input, code)
  {
    CodesAre(input, input.grants, code);
    if code in GrantedCodes(input, input.grants) {
      var g :| g in input.grants && GrantOf(input, g, code);
      assert Grants(input, g.role, code);
    }
    if GrantedBySome(input, code) {
      var role :| Grants(input, role, code);
      var g :| g in input.grants && g.role == role && CodeOf(input.permissions, g.permission) == Some(code);
      assert GrantOf(input, g, code);
    }
  }

  lemma ScopesAre(best: map<string, Scope>, input: Input, code: string)
    requires BestOf(best, input, |input.scopes|)
    ensures code in best <==> HasScope(input, code)
    ensures code in best ==> WidestBacked(input, code, best[code])
  {
    if code in best {
      var k :| 0 <= k < |input.scopes| && Backs(input, input.scopes[k], code, best[code]);
      assert Backed(input, code, best[code]);
    }
    forall s | Backed(input, code, s) ensures code in best && Rank(s) <= Rank(best[code]) {
      var row :| Backs(input, row, code, s);
      var k :| 0 <= k < |input.scopes| && input.scopes[k] == row;
    }
  }

  lemma NoRoleNoClaims(input: Input)
    requires forall row :: row in input.roles ==> !Effective(row, input.tenant)
    ensures Describes(Authorization([], [], map[], map[]), input)
  {
    forall role, code ensures !Grants(input, role, code) {
    }
  }

  method BuildClientAuthorization(input: Input) returns (a: Authorization)
    ensures Describes(a, input)
  {
    if !exists row :: row in input.roles && Effective(row, input.tenant) {
      NoRoleNoClaims(input);
      return Authorization([], [], map[], map[]);
    }
    var roles := OrderedSet(EffectiveNames(input.roles, input.tenant));
    var permissions := OrderedSet(GrantedCodes(input, input.grants));
    var best := BestScopes(input);
    a := Authorization(roles, permissions, best, map[]);
    forall n ensures n in roles <==> NameIn(input, n) {
      NamesAre(input.roles, input.tenant, n);
    }
    forall c ensures c in permissions <==> GrantedBySome(input, c) {
      GrantedMeans(input, c);
    }
    forall c ensures c in best <==> HasScope(input, c) {
      ScopesAre(best, input, c);
    }
    forall c | c in best ensures WidestBacked(input, c, best[c]) {
      ScopesAre(best, input, c);
    }
  }

  // ---------------------------------------------------------------- what that means

  /** Every scoped permission is granted. */
  lemma ScopedIsGranted(a: Authorization, input: Input, code: string)
    requires Describes(a, input) && code in a.permissionScopes
    ensures code in a.permissions
  {
    assert HasScope(input, code);
    var s :| Backed(input, code, s);
    var row :| Backs(input, row, code, s);
    assert GrantedBySome(input, code);
  }

  ghost predicate UniqueIds(permissions: seq<PermissionRow>) {
    forall i, j :: 0 <= i < j < |permissions| ==> permissions[i].id != permissions[j].id
  }

  ghost predicate SameRows(a: Input, b: Input) {
    && a.tenant == b.tenant
    && (forall r :: r in a.roles <==> r in b.roles)
    && (forall g :: g in a.grants <==> g in b.grants)
    && (forall s :: s in a.scopes <==> s in b.scopes)
    && (forall p :: p in a.permissions <==> p in b.permissions)
  }

  lemma {:induction false} CodeIsOfSomeRow(permissions: seq<PermissionRow>, id: int)
    ensures CodeOf(permissions, id).None? <==> forall p :: p in permissions ==> p.id != id
    ensures forall p :: UniqueIds(permissions) && p in permissions && p.id == id ==>
      CodeOf(permissions, id) == Some(Code(p.resource, p.action))
  {
    if permissions != [] {
      var last := permissions[|permissions| - 1];
      assert permissions == permissions[..|permissions| - 1] + [last];
      CodeIsOfSomeRow(permissions[..|permissions| - 1], id);
    }
  }

  lemma SameCodes(a: Input, b: Input, id: int)
    requires SameRows(a, b) && UniqueIds(a.permissions) && UniqueIds(b.permissions)
    ensures CodeOf(a.permissions, id) == CodeOf(b.permissions, id)
  {
    CodeIsOfSomeRow(a.permissions, id);
    CodeIsOfSomeRow(b.permissions, id);
    if CodeOf(a.permissions, id).Some? {
      var p :| p in a.permissions && p.id == id;
      assert p in b.permissions;
    }
  }

  lemma SameMeaning(a: Input, b: Input)
    requires SameRows(a, b) && UniqueIds(a.permissions) && UniqueIds(b.permissions)
    ensures forall n :: NameIn(a, n) ==> NameIn(b, n)
    ensures forall role, code :: Grants(a, role, code) ==> Grants(b, role, code)
    ensures forall code, s :: Backed(a, code, s) ==> Backed(b, code, s)
  {
    forall role, code | Grants(a, role, code) ensures Grants(b, role, code) {
      var g :| g in a.grants && g.role == role && CodeOf(a.permissions, g.permission) == Some(code);
      SameCodes(a, b, g.permission);
      assert g in b.grants;
      assert EffectiveRole(b, role);
    }
    forall code, s | Backed(a, code, s) ensures Backed(b, code, s) {
      var row :| Backs(a, row, code, s);
      assert Backs(b, row, code, s);
    }
  }

  lemma HasMember(s: seq<string>)
    ensures s == [] || exists x :: x in s
  {
    if s != [] {
      assert s[0] in s;
    }
  }

  lemma {:induction false} AscendingIsUnique(a: seq<string>, b: seq<string>)
    requires Ascending(a) && Ascending(b) && forall x :: x in a <==> x in b
    ensures a == b
  {
    if a == [] {
      HasMember(b);
    } else {
      assert a[0] in b && b != [];
      assert b[0] in a;
      FirstIsLeast(a, b[0]);
      FirstIsLeast(b, a[0]);
      if a[0] != b[0] {
        BeforeTransitive(a[0], b[0], a[0]);
        BeforeIrreflexive(a[0]);
      }
      RestMembers(a, b);
      AscendingIsUnique(a[1..], b[1..]);
      assert a == [a[0]] + a[1..] && b == [b[0]] + b[1..];
    }
  }

  lemma FirstIsLeast(s: seq<string>, x: string)
    requires Ascending(s) && x in s
    ensures x == s[0] || Before(s[0], x)
  {
    var i :| 0 <= i < |s| && s[i] == x;
  }

  lemma RestMembers(a: seq<string>, b: seq<string>)
    requires Ascending(a) && Ascending(b) && (forall x :: x in a <==> x in b) && a != [] && b != [] && a[0] == b[0]
    ensures forall x :: x in a[1..] <==> x in b[1..]
  {
    BeforeIrreflexive(a[0]);
    assert a == [a[0]] + a[1..] && b == [b[0]] + b[1..];
    assert a[0] !in a[1..] && b[0] !in b[1..];
    forall x ensures x in a[1..] <==> x in b[1..] {
      assert x in a <==> x == a[0] || x in a[1..];
      assert x in b <==> x == b[0] || x in b[1..];
    }
  }

  lemma WidestIsUnique(input: Input, code: string, s: Scope, t: Scope)
    requires WidestBacked(input, code, s) && WidestBacked(input, code, t)
    ensures s == t
  {
    assert Rank(s) == Rank(t);
  }

  lemma SameLists(a: Authorization, x: Input, b: Authorization, y: Input)
    requires Describes(a, x) && Describes(b, y)
    requires forall n :: NameIn(x, n) <==> NameIn(y, n)
    requires forall role, code :: Grants(x, role, code) <==> Grants(y, role, code)
    ensures a.roles == b.roles && a.permissions == b.permissions
  {
    AscendingIsUnique(a.roles, b.roles);
    forall c ensures c in a.permissions <==> c in b.permissions {
      assert GrantedBySome(x, c) <==> GrantedBySome(y, c);
    }
    AscendingIsUnique(a.permissions, b.permissions);
  }

  lemma SameWidest(x: Input, y: Input, code: string)
    requires forall s :: Backed(x, code, s) <==> Backed(y, code, s)
    ensures HasScope(x, code) <==> HasScope(y, code)
    ensures forall s :: WidestBacked(x, code, s) ==> WidestBacked(y, code, s)
  {
  }

  lemma SameWidestValue(x: Input, y: Input, code: string, s: Scope, t: Scope)
    requires WidestBacked(x, code, s) && WidestBacked(y, code, t)
    requires WidestBacked(x, code, s) ==> WidestBacked(y, code, s)
    ensures s == t
  {
    WidestIsUnique(y, code, s, t);
  }

  lemma SameScopes(a: map<string, Scope>, x: Input, b: map<string, Scope>, y: Input)
    requires forall c :: c in a <==> c in b
    requires forall c :: c in a ==> WidestBacked(x, c, a[c])
    requires forall c :: c in b ==> WidestBacked(y, c, b[c])
    requires forall c, s :: WidestBacked(x, c, s) ==> WidestBacked(y, c, s)
    ensures a == b
  {
    forall c | c in a ensures a[c] == b[c] {
      SameWidestValue(x, y, c, a[c], b[c]);
    }
  }

  lemma SameRowsSameScopes(a: map<string, Scope>, x: Input, b: map<string, Scope>, y: Input)
    requires ScopesFit(a, x) && ScopesFit(b, y)
    requires forall code, s :: Backed(x, code, s) <==> Backed(y, code, s)
    ensures a == b
  {
    forall c ensures (c in a <==> c in b) && forall s :: WidestBacked(x, c, s) ==> WidestBacked(y, c, s) {
      SameWidest(x, y, c);
    }
    SameScopes(a, x, b, y);
  }

  /** The claims depend only on which rows there are, not on their order or repetition. */
  lemma OrderOfRowsIrrelevant(a: Authorization, x: Input, b: Authorization, y: Input)
    requires Describes(a, x) && Describes(b, y)
    requires SameRows(x, y) && UniqueIds(x.permissions) && UniqueIds(y.permissions)
    ensures a == b
  {
    SameMeaning(x, y);
    SameMeaning(y, x);
    SameLists(a, x, b, y);
    SameRowsSameScopes(a.permissionScopes, x, b.permissionScopes, y);
  }

  // ---------------------------------------------------------------- the claims in plain terms

  /** The tenant's own role row, not deleted. */
  ghost predicate HoldsRole(input: Input, role: int) {
    exists row :: row in input.roles && row.id == role && row.tenant == input.tenant && row.deleted == false
  }

  /** A grant of that role names a permission whose resource and action spell `code` in lower case. */
  ghost predicate HoldsGrant(input: Input, role: int, code: string) {
    exists g, p :: g in input.grants && g.role == role && p in input.permissions && p.id == g.permission
      && code == ToLower(p.resource + ":" + p.action)
  }

  /** A scope row of a role that is held and granted `code`, spelled `name` in any case and with blanks around it. */
  ghost predicate ScopeRowSays(input: Input, code: string, name: string) {
    exists row :: row in input.scopes && row.tenant == input.tenant && code == ToLower(row.resource + ":" + row.action)
      && HoldsRole(input, row.role) && HoldsGrant(input, row.role, code) && ToUpper(Trim(row.scopeType)) == name
  }

  /** The four spellings, and no other. */
  lemma ParseMeans(s: string)
    ensures ParseLoose(s) == Some(All) <==> ToUpper(Trim(s)) == "ALL"
    ensures ParseLoose(s) == Some(Department) <==> ToUpper(Trim(s)) == "DEPARTMENT"
    ensures ParseLoose(s) == Some(Team) <==> ToUpper(Trim(s)) == "TEAM"
    ensures ParseLoose(s) == Some(Self) <==> ToUpper(Trim(s)) == "SELF"
  {
    NamedMeans(ToUpper(Trim(s)));
    SpellingsDiffer();
  }

  lemma SpellingsDiffer()
    ensures "ALL" != "DEPARTMENT" && "ALL" != "TEAM" && "ALL" != "SELF"
    ensures "DEPARTMENT" != "TEAM" && "DEPARTMENT" != "SELF" && "TEAM" != "SELF"
  {
    assert |"ALL"| == 3 && |"DEPARTMENT"| == 10 && |"TEAM"| == 4 && "TEAM"[0] == 'T' && "SELF"[0] == 'S';
  }

  lemma NamedMeans(name: string)
    ensures Named(name, [Self, Team, Department, All]) ==
      if name == ToWire(Self) then Some(Self)
      else if name == ToWire(Team) then Some(Team)
      else if name == ToWire(Department) then Some(Department)
      else if name == ToWire(All) then Some(All) else None
  {
    var all := [Self, Team, Department, All];
    assert all[1..] == [Team, Department, All] && all[1..][1..] == [Department, All] && all[1..][1..][1..] == [All];
    assert [All][1..] == [];
    assert Named(name, [All]) == if name == ToWire(All) then Some(All) else None;
    assert Named(name, [Department, All]) ==
      if name == ToWire(Department) then Some(Department) else Named(name, [All]);
  }

  lemma BackedMeans(input: Input, code: string)
    requires UniqueIds(input.permissions)
    ensures Backed(input, code, All) <==> ScopeRowSays(input, code, "ALL")
    ensures Backed(input, code, Department) <==> ScopeRowSays(input, code, "DEPARTMENT")
    ensures Backed(input, code, Team) <==> ScopeRowSays(input, code, "TEAM")
    ensures Backed(input, code, Self) <==> ScopeRowSays(input, code, "SELF")
  {
    BackedIs(input, code, All, "ALL");
    BackedIs(input, code, Department, "DEPARTMENT");
    BackedIs(input, code, Team, "TEAM");
    BackedIs(input, code, Self, "SELF");
  }

  lemma BackedIs(input: Input, code: string, scope: Scope, name: string)
    requires UniqueIds(input.permissions) && name == match scope
      case Self => "SELF" case Team => "TEAM" case Department => "DEPARTMENT" case All => "ALL"
    ensures Backed(input, code, scope) <==> ScopeRowSays(input, code, name)
  {
    if Backed(input, code, scope) {
      var row :| Backs(input, row, code, scope);
      ParseMeans(row.scopeType);
      GrantsMeans(input, row.role, code);
    }
    if ScopeRowSays(input, code, name) {
      var row :| row in input.scopes && row.tenant == input.tenant && code == ToLower(row.resource + ":" + row.action)
        && HoldsRole(input, row.role) && HoldsGrant(input, row.role, code) && ToUpper(Trim(row.scopeType)) == name;
      ParseMeans(row.scopeType);
      GrantsMeans(input, row.role, code);
      assert Backs(input, row, code, scope);
    }
  }

  lemma GrantsMeans(input: Input, role: int, code: string)
    requires UniqueIds(input.permissions)
    ensures Grants(input, role, code) <==> HoldsRole(input, role) && HoldsGrant(input, role, code)
    ensures EffectiveRole(input, role) <==> HoldsRole(input, role)
  {
    if g :| g in input.grants && g.role == role && CodeOf(input.permissions, g.permission) == Some(code) {
      CodeIsOfSomeRow(input.permissions, g.permission);
      var p :| p in input.permissions && p.id == g.permission;
      assert code == ToLower(p.resource + ":" + p.action);
    }
    if g, p :|
      && g in input.grants && g.role == role && p in input.permissions && p.id == g.permission
      && code == ToLower(p.resource + ":" + p.action) {
      CodeIsOfSomeRow(input.permissions, g.permission);
    }
  }

  /**
   With permission ids unique: the names and permissions of exactly the held roles, in order, and for a
   permission ALL if any counting row says so, else DEPARTMENT, else TEAM, else SELF, else no scope.
   */
  lemma ClaimsMean(a: Authorization, input: Input, c: string)
    requires Describes(a, input) && UniqueIds(input.permissions)
    ensures c in a.roles <==>
      exists row :: row in input.roles && row.tenant == input.tenant && row.deleted == false && row.name == c
    ensures c in a.permissions <==> exists role :: HoldsRole(input, role) && HoldsGrant(input, role, c)
    ensures if ScopeRowSays(input, c, "ALL") then c in a.permissionScopes && a.permissionScopes[c] == All
      else if ScopeRowSays(input, c, "DEPARTMENT") then c in a.permissionScopes && a.permissionScopes[c] == Department
      else if ScopeRowSays(input, c, "TEAM") then c in a.permissionScopes && a.permissionScopes[c] == Team
      else if ScopeRowSays(input, c, "SELF") then c in a.permissionScopes && a.permissionScopes[c] == Self
      else c !in a.permissionScopes
  {
    BackedMeans(input, c);
    PermissionMeans(a, input, c);
    assert c in a.roles <==> NameIn(input, c);
    WidestIs(a, input, c);
  }

  lemma PermissionMeans(a: Authorization, input: Input, c: string)
    requires Describes(a, input) && UniqueIds(input.permissions)
    ensures c in a.permissions <==> exists role :: HoldsRole(input, role) && HoldsGrant(input, role, c)
  {
    assert c in a.permissions <==> GrantedBySome(input, c);
    if role :| Grants(input, role, c) {
      GrantsMeans(input, role, c);
    }
    if role :| HoldsRole(input, role) && HoldsGrant(input, role, c) {
      GrantsMeans(input, role, c);
    }
  }

  lemma WidestIs(a: Authorization, input: Input, c: string)
    requires Describes(a, input)
    ensures if Backed(input, c, All) then c in a.permissionScopes && a.permissionScopes[c] == All
      else if Backed(input, c, Department) then c in a.permissionScopes && a.permissionScopes[c] == Department
      else if Backed(input, c, Team) then c in a.permissionScopes && a.permissionScopes[c] == Team
      else if Backed(input, c, Self) then c in a.permissionScopes && a.permissionScopes[c] == Self
      else c !in a.permissionScopes
  {
    assert c in a.permissionScopes <==> HasScope(input, c);
    OneOfFour(input, c);
    if c in a.permissionScopes {
      assert WidestBacked(input, c, a.permissionScopes[c]);
      WidestOfFour(input, c, a.permissionScopes[c]);
    }
  }

  lemma OneOfFour(input: Input, c: string)
    ensures HasScope(input, c) <==>
      Backed(input, c, All) || Backed(input, c, Department) || Backed(input, c, Team) || Backed(input, c, Self)
  {
    if HasScope(input, c) {
      var s :| Backed(input, c, s);
      assert s == All || s == Department || s == Team || s == Self;
    }
  }

  lemma WidestOfFour(input: Input, c: string, scope: Scope)
    requires WidestBacked(input, c, scope)
    ensures Backed(input, c, scope)
    ensures Backed(input, c, All) ==> scope == All
    ensures Backed(input, c, Department) ==> scope == All || scope == Department
    ensures Backed(input, c, Team) ==> scope != Self
  {
  }

  /** Of several permission rows with one id the last one counts. */
  lemma LastRowCounts(permissions: seq<PermissionRow>, row: PermissionRow, id: int)
    ensures CodeOf([], id) == None
    ensures CodeOf(permissions + [row], id) ==
      if id == row.id then Some(ToLower(row.resource + ":" + row.action)) else CodeOf(permissions, id)
  {
    assert (permissions + [row])[..|permissions|] == permissions;
  }
}
