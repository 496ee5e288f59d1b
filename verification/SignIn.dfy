/**
Who may do what (ResolveAccess in pkg/api/signin.go): what the access rules
give one person, in whatever order the rules and the groups come.
*/
module SignIn {
  import opened Options
  import opened Text

  datatype Role = Read | Deploy | Admin {
    function Rank(): int {
      match this
      case Read => 0
      case Deploy => 1
      case Admin => 2
    }

    predicate Covers(required: Role) {
      Rank() >= required.Rank()
    }
  }

  /** Each role covers itself and those below it. */
  lemma RolesCover(a: Role, b: Role)
    ensures a.Covers(b) <==> a == Admin || b == Read || (a == Deploy && b == Deploy)
  {
  }

  datatype Kind = ByEmail | ByGroup | ByDomain | ByName

  datatype Rule = Rule(kind: Kind, subject: string, role: Role, applications: seq<string>)

  // A person as the session holds them. `email` and `domain` are the name
  // read as an address and the part after its @, empty when it is none.
  datatype Person = Person(name: string, email: string, domain: string, groups: seq<string>)

  datatype Grant = Grant(role: Role, applications: seq<string>)

  predicate Matches(r: Rule, p: Person) {
    match r.kind
    case ByName => r.subject == p.name
    case ByEmail => p.email != "" && r.subject == p.email
    case ByGroup => r.subject in p.groups
    case ByDomain => p.domain != "" && r.subject == p.domain
  }

  function GrantOf(r: Rule): Grant {
    Grant(r.role, r.applications)
  }

  // In order and without duplicates.
  ghost predicate Tidy(names: seq<string>) {
    forall i, j :: 0 <= i < j < |names| ==> Compare(names[i], names[j]) < 0
  }

  // The rules as the store holds them: one for each kind and subject.
  ghost predicate Stored(rules: seq<Rule>) {
    && (forall i, j :: 0 <= i < j < |rules| ==> rules[i].kind != rules[j].kind || rules[i].subject != rules[j].subject)
    && (forall i :: 0 <= i < |rules| ==> Tidy(rules[i].applications))
  }

  /** Two lists in order that hold the same names are the same. */
  lemma {:induction false} TidyIsUnique(a: seq<string>, b: seq<string>)
    requires Tidy(a) && Tidy(b) && forall n :: n in a <==> n in b
    ensures a == b
  {
    HeadIn(a);
    HeadIn(b);
    if a != [] && b != [] {
      if a[0] != b[0] {
        assert a[0] in b && b[0] in a;
        CompareFlips(a[0], b[0]);
      }
      forall n ensures n in a[1..] <==> n in b[1..] {
        assert n in a[1..] ==> n in a && n != a[0];
        assert n in b[1..] ==> n in b && n != b[0];
        assert n in a && n != a[0] ==> n in a[1..];
        assert n in b && n != b[0] ==> n in b[1..];
      }
      TidyIsUnique(a[1..], b[1..]);
      assert a == [a[0]] + a[1..] && b == [b[0]] + b[1..];
    }
  }

  // slices.Sort
  function Insert(name: string, names: seq<string>): (r: seq<string>)
    ensures multiset(r) == multiset(names) + multiset{name}
  {
    if names == [] || Compare(name, names[0]) <= 0 then [name] + names
    else
      assert names == [names[0]] + names[1..];
      [names[0]] + Insert(name, names[1..])
  }

  function Sort(names: seq<string>): (r: seq<string>)
    ensures multiset(r) == multiset(names)
  {
    if names == [] then []
    else
      assert names == [names[0]] + names[1..];
      Insert(names[0], Sort(names[1..]))
  }

  lemma {:induction false} InsertTidy(name: string, names: seq<string>)
    requires Tidy(names) && name !in names
    ensures Tidy(Insert(name, names))
  {
    var r := Insert(name, names);
    if names == [] {
    } else if Compare(name, names[0]) <= 0 {
      forall i | 0 <= i < |names| ensures Compare(name, names[i]) < 0 {
        if i > 0 { CompareChains(name, names[0], names[i]); }
      }
    } else {
      InsertTidy(name, names[1..]);
      var rest := Insert(name, names[1..]);
      CompareFlips(name, names[0]);
      forall n | n in rest ensures Compare(names[0], n) < 0 {
        assert n in multiset(rest);
        assert n == name || n in names[1..];
      }
      assert r == [names[0]] + rest;
    }
  }

  lemma {:induction false} SortTidy(names: seq<string>)
    requires forall i, j :: 0 <= i < j < |names| ==> names[i] != names[j]
    ensures Tidy(Sort(names)) && forall n :: n in Sort(names) <==> n in names
  {
    if names != [] {
      SortTidy(names[1..]);
      InsertTidy(names[0], Sort(names[1..]));
    }
    forall n ensures n in Sort(names) <==> n in names {
      assert n in Sort(names) <==> n in multiset(Sort(names));
      assert n in names <==> n in multiset(names);
    }
  }

  ghost predicate OfGroup(r: Rule, p: Person) {
    r.kind == ByGroup && Matches(r, p) && Tidy(r.applications)
  }

  // A rule that decides among the groups, and one with the role they give.
  ghost predicate GroupRule(rules: seq<Rule>, p: Person, r: Rule) {
    r in rules && r.kind == ByGroup && Matches(r, p)
  }

  ghost predicate TopRule(rules: seq<Rule>, p: Person, role: Role, r: Rule) {
    GroupRule(rules, p, r) && r.role == role
  }

  // The highest role, without a limit if a rule gives it without one, and
  // otherwise limited to all that the rules that give it name.
  ghost predicate GroupsGive(rules: seq<Rule>, p: Person, g: Grant) {
    && (exists r :: TopRule(rules, p, g.role, r))
    && (forall r :: GroupRule(rules, p, r) ==> g.role.Covers(r.role))
    && Tidy(g.applications)
    && (if exists r :: TopRule(rules, p, g.role, r) && r.applications == [] then g.applications == []
        else forall a :: a in g.applications <==> exists r :: TopRule(rules, p, g.role, r) && a in r.applications)
  }

  ghost predicate Has(rules: seq<Rule>, p: Person, kind: Kind) {
    exists r :: r in rules && r.kind == kind && Matches(r, p)
  }

  ghost predicate Gives(rules: seq<Rule>, p: Person, kind: Kind, g: Grant) {
    exists r :: r in rules && r.kind == kind && Matches(r, p) && g == GrantOf(r)
  }

  // What the rules come to, said without an order: the most specific kind decides.
  ghost predicate Decides(rules: seq<Rule>, p: Person, g: Option<Grant>) {
    if Has(rules, p, ByName) then g.Some? && Gives(rules, p, ByName, g.value)
    else if Has(rules, p, ByEmail) then g.Some? && Gives(rules, p, ByEmail, g.value)
    else if Has(rules, p, ByGroup) then g.Some? && GroupsGive(rules, p, g.value)
    else if Has(rules, p, ByDomain) then g.Some? && Gives(rules, p, ByDomain, g.value)
    else g.None?
  }

  // What one rule of a kind gives the person of its subject.
  ghost predicate GivenBy(rules: seq<Rule>, kind: Kind, subject: string, g: Option<Grant>) {
    exists r :: r in rules && r.kind == kind && r.subject == subject && g == Some(Grant(r.role, r.applications))
  }

  ghost predicate HasRule(rules: seq<Rule>, kind: Kind, subject: string) {
    exists r :: r in rules && r.kind == kind && r.subject == subject
  }

  /**
   Who decides: a rule by the name, character for character; else one by the address; else those of
   the person's groups; else the one of the address's domain; and nobody without a rule gets anything.
   */
  lemma WhoDecides(rules: seq<Rule>, p: Person, g: Option<Grant>)
    requires Decides(rules, p, g)
    ensures if HasRule(rules, ByName, p.name) then GivenBy(rules, ByName, p.name, g)
            else if p.email != "" && HasRule(rules, ByEmail, p.email) then GivenBy(rules, ByEmail, p.email, g)
            else if exists group :: group in p.groups && HasRule(rules, ByGroup, group) then
              g.Some? && exists group :: group in p.groups && HasRoleOf(rules, group, g.value.role)
            else if p.domain != "" && HasRule(rules, ByDomain, p.domain) then GivenBy(rules, ByDomain, p.domain, g)
            else g.None?
  {
    KindHas(rules, p, ByName);
    KindHas(rules, p, ByEmail);
    KindHas(rules, p, ByDomain);
    if Has(rules, p, ByGroup) {
      var r :| r in rules && r.kind == ByGroup && Matches(r, p);
      assert HasRule(rules, ByGroup, r.subject);
    }
    if group :| group in p.groups && HasRule(rules, ByGroup, group) {
      var r :| r in rules && r.kind == ByGroup && r.subject == group;
      assert Matches(r, p) && Has(rules, p, ByGroup);
      if g.Some? && GroupsGive(rules, p, g.value) {
        var top :| TopRule(rules, p, g.value.role, top);
        assert HasRoleOf(rules, top.subject, g.value.role);
      }
    }
  }

  ghost predicate HasRoleOf(rules: seq<Rule>, group: string, role: Role) {
    exists r :: r in rules && r.kind == ByGroup && r.subject == group && r.role == role
  }

  lemma KindHas(rules: seq<Rule>, p: Person, kind: Kind)
    requires kind != ByGroup
    ensures var subject := if kind == ByName then p.name else if kind == ByEmail then p.email else p.domain;
      && (Has(rules, p, kind) <==> (kind == ByName || subject != "") && HasRule(rules, kind, subject))
      && forall g :: Gives(rules, p, kind, g) ==> GivenBy(rules, kind, subject, Some(g))
  {
    var subject := if kind == ByName then p.name else if kind == ByEmail then p.email else p.domain;
    if (kind == ByName || subject != "") && HasRule(rules, kind, subject) {
      var r :| r in rules && r.kind == kind && r.subject == subject;
      assert Matches(r, p);
    }
  }

  // The same rules, and the same person with their groups in another order.
  ghost predicate Same(rules: seq<Rule>, rules': seq<Rule>, p: Person, p': Person) {
    && (forall r :: r in rules <==> r in rules')
    && p' == p.(groups := p'.groups) && (forall n :: n in p.groups <==> n in p'.groups)
  }

  lemma OneOfAKind(rules: seq<Rule>, p: Person, r: Rule, r': Rule)
    requires Stored(rules) && r in rules && r' in rules && r.kind == r'.kind && r.kind != ByGroup
    requires Matches(r, p) && Matches(r', p)
    ensures r == r'
  {
    var i :| 0 <= i < |rules| && rules[i] == r;
    var j :| 0 <= j < |rules| && rules[j] == r';
  }

  lemma SameGives(rules: seq<Rule>, rules': seq<Rule>, p: Person, p': Person, kind: Kind, g: Grant, g': Grant)
    requires Stored(rules) && Same(rules, rules', p, p') && kind != ByGroup
    requires Gives(rules, p, kind, g) && Gives(rules', p', kind, g')
    ensures g == g'
  {
    var r :| r in rules && r.kind == kind && Matches(r, p) && g == GrantOf(r);
    var r' :| r' in rules' && r'.kind == kind && Matches(r', p') && g' == GrantOf(r');
    OneOfAKind(rules, p, r, r');
  }

  lemma SameGroupsGive(rules: seq<Rule>, rules': seq<Rule>, p: Person, p': Person, g: Grant, g': Grant)
    requires Same(rules, rules', p, p') && GroupsGive(rules, p, g) && GroupsGive(rules', p', g')
    ensures g == g'
  {
    forall r ensures GroupRule(rules, p, r) <==> GroupRule(rules', p', r) {}
    var r :| TopRule(rules, p, g.role, r);
    var r' :| TopRule(rules', p', g'.role, r');
    assert g.role == g'.role;
    forall x ensures TopRule(rules, p, g.role, x) <==> TopRule(rules', p', g.role, x) {}
    TidyIsUnique(g.applications, g'.applications);
  }

  /**
   The order of the rules and of the groups decides nothing: two resolutions
   of the same rules give equal grants, so no session ends over an order.
   */
  lemma OrderDecidesNothing(rules: seq<Rule>, rules': seq<Rule>, p: Person, p': Person,
                            g: Option<Grant>, g': Option<Grant>)
    requires Stored(rules) && Same(rules, rules', p, p') && Decides(rules, p, g) && Decides(rules', p', g')
    ensures g == g'
  {
    forall kind ensures Has(rules, p, kind) <==> Has(rules', p', kind) {}
    if Has(rules, p, ByName) {
      SameGives(rules, rules', p, p', ByName, g.value, g'.value);
    } else if Has(rules, p, ByEmail) {
      SameGives(rules, rules', p, p', ByEmail, g.value, g'.value);
    } else if Has(rules, p, ByGroup) {
      SameGroupsGive(rules, rules', p, p', g.value, g'.value);
    } else if Has(rules, p, ByDomain) {
      SameGives(rules, rules', p, p', ByDomain, g.value, g'.value);
    }
  }

  // The names of one list and of another, once each, in order.
  method Union(names: seq<string>, more: seq<string>) returns (all: seq<string>)
    requires Tidy(names) && Tidy(more)
    ensures Tidy(all) && forall n :: n in all <==> n in names || n in more
  {
    var found := names;
    for i := 0 to |more|
      invariant forall n :: n in found <==> n in names || n in more[..i]
      invariant forall j, k :: 0 <= j < k < |found| ==> found[j] != found[k]
    {
      assert more[..i + 1] == more[..i] + [more[i]];
      if more[i] !in found {
        found := found + [more[i]];
      }
    }
    assert more[..|more|] == more;
    SortTidy(found);
    all := Sort(found);
  }

  ghost predicate Folded(before: Grant, r: Rule, after: Grant) {
    if r.role != before.role then after == if r.role.Covers(before.role) then GrantOf(r) else before
    else
      && after.role == before.role && Tidy(after.applications)
      && if r.applications == [] || before.applications == [] then after.applications == []
         else forall a :: a in after.applications <==> a in before.applications || a in r.applications
  }

  // What one more rule makes of the best grant so far.
  method Better(best: Grant, r: Rule) returns (better: Grant)
    requires Tidy(best.applications) && Tidy(r.applications)
    ensures Folded(best, r, better)
  {
    var g := GrantOf(r);
    better := best;
    if g.role != best.role {
      if g.role.Covers(best.role) {
        better := g;
      }
    } else if |g.applications| == 0 || |best.applications| == 0 {
      better := best.(applications := []);
    } else {
      var all := Union(best.applications, g.applications);
      better := best.(applications := all);
    }
  }

  // The best grants after each of the rules, from the first on.
  ghost predicate Fold(byGroup: seq<Rule>, bests: seq<Grant>) {
    && 0 < |bests| <= |byGroup| && bests[0] == GrantOf(byGroup[0])
    && forall k :: 0 < k < |bests| ==> Folded(bests[k - 1], byGroup[k], bests[k])
  }

  lemma FoldedTidy(before: Grant, r: Rule, after: Grant)
    requires Tidy(before.applications) && Tidy(r.applications) && Folded(before, r, after)
    ensures Tidy(after.applications)
  {
  }

  // The fold over the rules of a person's groups.
  method BestOf(byGroup: seq<Rule>, ghost p: Person) returns (best: Grant)
    requires byGroup != []
    requires forall k :: 0 <= k < |byGroup| ==> OfGroup(byGroup[k], p)
    ensures GroupsGive(byGroup, p, best)
  {
    best := GrantOf(byGroup[0]);
    ghost var bests := [best];
    for i := 1 to |byGroup|
      invariant Fold(byGroup, bests) && |bests| == i && bests[i - 1] == best && Tidy(best.applications)
    {
      var better := Better(best, byGroup[i]);
      FoldedTidy(best, byGroup[i], better);
      best := better;
      bests := bests + [best];
    }
    FoldGives(byGroup, p, bests);
    assert byGroup[..|byGroup|] == byGroup;
  }

  lemma {:induction false} FoldGives(byGroup: seq<Rule>, p: Person, bests: seq<Grant>)
    requires Fold(byGroup, bests)
    requires forall k :: 0 <= k < |byGroup| ==> OfGroup(byGroup[k], p)
    ensures GroupsGive(byGroup[..|bests|], p, bests[|bests| - 1])
    decreases |bests|
  {
    var n := |bests| - 1;
    if n == 0 {
      FirstGives(byGroup, p);
    } else {
      FoldGives(byGroup, p, bests[..n]);
      OneMoreGives(byGroup[..n], p, bests[n - 1], byGroup[n], bests[n]);
      assert byGroup[..n + 1] == byGroup[..n] + [byGroup[n]];
    }
  }

  lemma FirstGives(byGroup: seq<Rule>, p: Person)
    requires byGroup != [] && OfGroup(byGroup[0], p)
    ensures GroupsGive(byGroup[..1], p, GrantOf(byGroup[0]))
  {
    var r := byGroup[0];
    assert byGroup[..1] == [r];
    assert TopRule([r], p, r.role, r);
    forall a ensures a in r.applications <==> exists x :: TopRule([r], p, r.role, x) && a in x.applications {}
  }

  // Without a limit, a rule gives the role without one.
  lemma NoLimit(rules: seq<Rule>, p: Person, g: Grant) returns (r: Rule)
    requires GroupsGive(rules, p, g) && g.applications == []
    ensures TopRule(rules, p, g.role, r) && r.applications == []
  {
    r :| TopRule(rules, p, g.role, r);
    if r.applications != [] {
      var a := r.applications[0];
      assert a in r.applications;
      assert a in g.applications || exists x :: TopRule(rules, p, g.role, x) && x.applications == [];
      r :| TopRule(rules, p, g.role, r) && r.applications == [];
    }
  }

  lemma OneMoreGives(rules: seq<Rule>, p: Person, before: Grant, r: Rule, after: Grant)
    requires GroupsGive(rules, p, before) && OfGroup(r, p)
    requires Folded(before, r, after)
    ensures GroupsGive(rules + [r], p, after)
  {
    var more := rules + [r];
    forall x ensures GroupRule(more, p, x) <==> GroupRule(rules, p, x) || x == r {
      assert x in more <==> x in rules || x == r;
    }
    var top :| TopRule(rules, p, before.role, top);
    assert TopRule(more, p, after.role, if after.role == before.role then top else r);
    forall x ensures TopRule(more, p, after.role, x)
                     <==> (TopRule(rules, p, after.role, x) || (x == r && r.role == after.role)) {}
    HeadIn(top.applications);
    if after.role != before.role {
      assert forall x :: TopRule(more, p, after.role, x) <==> x == r;
      forall a ensures a in r.applications <==> exists x :: TopRule(more, p, after.role, x) && a in x.applications {}
    } else if r.role != before.role {
      assert forall x :: TopRule(more, p, after.role, x) <==> TopRule(rules, p, after.role, x);
    } else if r.applications != [] && before.applications != [] {
      forall a ensures a in after.applications <==> exists x :: TopRule(more, p, after.role, x) && a in x.applications {
        assert TopRule(more, p, after.role, r);
      }
    } else if r.applications == [] {
      assert TopRule(more, p, after.role, r);
    } else {
      var x := NoLimit(rules, p, before);
      assert TopRule(more, p, after.role, x);
    }
  }

  // The rules of a person's groups, picked out, give what they give among the rest.
  lemma PickedOut(byGroup: seq<Rule>, rules: seq<Rule>, p: Person, g: Grant)
    requires forall r :: r in byGroup <==> GroupRule(rules, p, r)
    requires GroupsGive(byGroup, p, g)
    ensures GroupsGive(rules, p, g)
  {
    forall r ensures GroupRule(byGroup, p, r) <==> GroupRule(rules, p, r) {}
    forall role, r ensures TopRule(byGroup, p, role, r) <==> TopRule(rules, p, role, r) {}
    var top :| TopRule(byGroup, p, g.role, top);
    assert TopRule(rules, p, g.role, top);
  }

  /** What the rules give a person: what they decide, whatever their order. */
  method ResolveAccess(rules: seq<Rule>, p: Person) returns (grant: Option<Grant>)
    requires Stored(rules)
    ensures Decides(rules, p, grant)
  {
    var byEmail: Option<Rule>, byDomain: Option<Rule> := None, None;
    var byGroup: seq<Rule> := [];
    for i := 0 to |rules|
      invariant !Has(rules[..i], p, ByName)
      invariant if byEmail.Some? then Gives(rules[..i], p, ByEmail, GrantOf(byEmail.value))
          else !Has(rules[..i], p, ByEmail)
      invariant if byDomain.Some? then Gives(rules[..i], p, ByDomain, GrantOf(byDomain.value))
          else !Has(rules[..i], p, ByDomain)
      invariant forall r :: r in byGroup <==> GroupRule(rules[..i], p, r)
    {
      var r := rules[i];
      assert rules[..i + 1] == rules[..i] + [r];
      if r.kind == ByName && r.subject == p.name {
        assert r in rules && Gives(rules, p, ByName, GrantOf(r));
        return Some(GrantOf(r));
      }
      if r.kind == ByEmail && p.email != "" && r.subject == p.email {
        byEmail := Some(r);
      } else if r.kind == ByGroup && r.subject in p.groups {
        byGroup := byGroup + [r];
      } else if r.kind == ByDomain && p.domain != "" && r.subject == p.domain {
        byDomain := Some(r);
      }
    }
    assert rules[..|rules|] == rules;
    if byEmail.Some? {
      return Some(GrantOf(byEmail.value));
    }
    HeadIn(byGroup);
    if |byGroup| > 0 {
      forall k | 0 <= k < |byGroup| ensures OfGroup(byGroup[k], p) {
        assert byGroup[k] in byGroup;
      }
      var best := BestOf(byGroup, p);
      PickedOut(byGroup, rules, p, best);
      assert Has(rules, p, ByGroup);
      return Some(best);
    }
    assert !Has(rules, p, ByGroup) by {
      forall r | r in rules ensures !(r.kind == ByGroup && Matches(r, p)) {
        assert GroupRule(rules, p, r) ==> r in byGroup;
      }
    }
    if byDomain.Some? {
      return Some(GrantOf(byDomain.value));
    }
    return None;
  }
}
