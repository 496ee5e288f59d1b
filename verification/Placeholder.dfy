/**
Placeholders (pkg/spec/placeholder.go): `${NAME}` in a value, what the agent
and the command line fill in for it, and how a document writes a value that
merely looks like one (pkg/spec/document.go).
*/
module Placeholder {
  import opened Options
  import opened Text

  predicate IsNameStart(c: char) {
    'A' <= c <= 'Z' || 'a' <= c <= 'z' || c == '_'
  }

  predicate IsNameChar(c: char) {
    IsNameStart(c) || IsDigit(c)
  }

  predicate IsName(s: string) {
    s != "" && IsNameStart(s[0]) && forall k :: 0 <= k < |s| ==> IsNameChar(s[k])
  }

  // What the expression matches: its two groups, `escaped` for the first.
  datatype Match = Match(escaped: bool, name: string) {
    function Braces(): string {
      "{" + name + "}"
    }

    function Text(): (s: string)
      ensures |s| > |name| + 2
    {
      (if escaped then "$$" else "$") + Braces()
    }
  }

  // How far the characters of a name go.
  function NameLength(s: string): (n: nat)
    ensures n <= |s| && (forall k :: 0 <= k < n ==> IsNameChar(s[k])) && (n < |s| ==> !IsNameChar(s[n]))
  {
    if s == "" || !IsNameChar(s[0]) then 0 else 1 + NameLength(s[1..])
  }

  // The name in braces that s begins with.
  function Braced(s: string): (name: Option<string>)
    ensures name.Some? ==> IsName(name.value) && "{" + name.value + "}" <= s
  {
    if s == "" || s[0] != '{' then None
    else
      var n := NameLength(s[1..]);
      if n > 0 && IsNameStart(s[1]) && n + 1 < |s| && s[n + 1] == '}' then
        var name := s[1..n + 1];
        assert "{" + name + "}" == s[..n + 2];
        Some(name)
      else None
  }

  lemma BracedAll(name: string, s: string)
    requires IsName(name) && "{" + name + "}" <= s
    ensures Braced(s) == Some(name)
  {
    var whole := "{" + name + "}";
    assert s[..|whole|] == whole;
    assert s[0] == whole[0] && s[|name| + 1] == whole[|name| + 1];
    forall k | 0 <= k < |name| ensures s[k + 1] == name[k] {
      assert s[k + 1] == whole[k + 1];
    }
    assert s[1..|name| + 1] == name;
  }

  // The match that s begins with.
  function First(s: string): (m: Option<Match>)
    ensures m.Some? ==> IsName(m.value.name) && m.value.Text() <= s
  {
    if s == "" || s[0] != '$' then None
    else if Braced(s[1..]).Some? then Some(Match(false, Braced(s[1..]).value))
    else if |s| > 1 && s[1] == '$' && Braced(s[2..]).Some? then Some(Match(true, Braced(s[2..]).value))
    else None
  }

  /** No text is matched in two ways, and none that the expression describes is missed. */
  lemma FirstIsAll(s: string, m: Match)
    requires IsName(m.name) && m.Text() <= s
    ensures First(s) == Some(m)
  {
    var at := if m.escaped then 2 else 1;
    assert s[..|m.Text()|] == m.Text();
    assert s[at..][..|m.Braces()|] == m.Braces();
    assert s[0] == m.Text()[0] && s[1] == m.Text()[1];
    BracedAll(m.name, s[at..]);
  }

  // The matches in a value, from the left (FindAllStringSubmatch).
  function FindAll(s: string): seq<Match>
    decreases |s|
  {
    if s == "" then []
    else match First(s)
      case Some(m) => [m] + FindAll(s[|m.Text()|..])
      case None => FindAll(s[1..])
  }

  // The value with each match replaced by what f makes of it (ReplaceAllStringFunc).
  function ReplaceAll(s: string, f: Match -> string): string
    decreases |s|
  {
    if s == "" then ""
    else match First(s)
      case Some(m) => f(m) + ReplaceAll(s[|m.Text()|..], f)
      case None => [s[0]] + ReplaceAll(s[1..], f)
  }

  lemma MatchStep(m: Match, rest: string, f: Match -> string)
    requires IsName(m.name)
    ensures FindAll(m.Text() + rest) == [m] + FindAll(rest)
    ensures ReplaceAll(m.Text() + rest, f) == f(m) + ReplaceAll(rest, f)
  {
    FirstIsAll(m.Text() + rest, m);
  }

  lemma PlainStep(c: char, rest: string, f: Match -> string)
    requires First([c] + rest) == None
    ensures FindAll([c] + rest) == FindAll(rest)
    ensures ReplaceAll([c] + rest, f) == [c] + ReplaceAll(rest, f)
  {
    assert ([c] + rest)[1..] == rest;
  }

  method HasPlaceholder(s: string) returns (has: bool)
    ensures has <==> Names(s) != []
  {
    var found := FindAll(s);
    for i := 0 to |found|
      invariant NamesOf(found[..i]) == []
    {
      NamesSplit(found, i);
      if !found[i].escaped {
        return true;
      }
    }
    assert found[..|found|] == found;
    return false;
  }

  lemma {:induction false} NamesSplit(found: seq<Match>, i: nat)
    requires i < |found|
    ensures NamesOf(found[..i + 1]) == NamesOf(found[..i]) + if found[i].escaped then [] else [found[i].name]
    ensures !found[i].escaped ==> NamesOf(found) != []
  {
    assert i > 0 ==> found[1..][..i] == found[..i + 1][1..] && found[1..][..i - 1] == found[..i][1..];
    if i > 0 {
      NamesSplit(found[1..], i - 1);
    }
  }

  function NamesOf(found: seq<Match>): seq<string> {
    if found == [] then [] else (if found[0].escaped then [] else [found[0].name]) + NamesOf(found[1..])
  }

  // The secrets a text refers to (placeholderNames).
  function Names(s: string): seq<string> {
    NamesOf(FindAll(s))
  }

  method PlaceholderNames(s: string) returns (names: seq<string>)
    ensures names == Names(s)
  {
    names := [];
    var found := FindAll(s);
    for i := 0 to |found|
      invariant names == NamesOf(found[..i])
    {
      NamesSplit(found, i);
      if !found[i].escaped {
        names := names + [found[i].name];
      }
    }
    assert found[..|found|] == found;
  }

  function Dollar(m: Match): string {
    "$" + m.Text()
  }

  // A value as a document writes it when it is not to be read as a placeholder.
  function PlainValue(v: string): string {
    ReplaceAll(v, Dollar)
  }

  // What the agent puts for a match (resolveSecrets): the literal for the
  // escaped form, the stored secret for a name, the match when there is none.
  function Secret(secrets: map<string, string>): Match -> string {
    (m: Match) => if m.escaped then "$" + m.Braces() else if m.name in secrets then secrets[m.name] else m.Text()
  }

  function Filled(s: string, secrets: map<string, string>): string {
    ReplaceAll(s, Secret(secrets))
  }

  // What the command line puts for a match (expand), in the values that the
  // agent fills in as well and in all others: in the former the escaped form
  // is left to the agent.
  function Variable(vars: map<string, string>, env: bool): Match -> string {
    (m: Match) => if m.escaped then (if env then m.Text() else "$" + m.Braces())
      else if m.name in vars then vars[m.name] else m.Text()
  }

  function Expanded(s: string, vars: map<string, string>, env: bool): string {
    ReplaceAll(s, Variable(vars, env))
  }

  // What has no $ goes through PlainValue as it is.
  lemma {:induction false} Unchanged(p: string, t: string)
    requires '$' !in p
    ensures p <= PlainValue(t) <==> p <= t
    decreases |t|
  {
    if p != "" && t != "" {
      assert p[0] in p;
      if First(t) == None {
        Unchanged(p[1..], t[1..]);
        assert p == [p[0]] + p[1..] && t == [t[0]] + t[1..];
        assert PlainValue(t) == [t[0]] + PlainValue(t[1..]);
        Prefix(p, t);
        Prefix(p, PlainValue(t));
      }
    }
  }

  lemma Prefix(p: string, t: string)
    requires p != "" && t != ""
    ensures p <= t <==> p[0] == t[0] && p[1..] <= t[1..]
  {
    if p[0] == t[0] && p[1..] <= t[1..] {
      assert p == [p[0]] + p[1..] && t == [t[0]] + t[1..];
    }
    if p <= t {
      assert t[1..][..|p| - 1] == p[1..];
    }
  }

  lemma BracesHaveNoDollar(m: Match)
    requires IsName(m.name)
    ensures '$' !in m.Braces()
  {
    assert forall k :: 0 <= k < |m.name| ==> IsNameChar(m.name[k]);
  }

  // Escaping what follows a character does not make a match of it.
  lemma NoNewMatch(c: char, t: string)
    requires First([c] + t) == None
    ensures First([c] + PlainValue(t)) == None
  {
    var s := [c] + PlainValue(t);
    if First(s).Some? {
      var m := First(s).value;
      BracesHaveNoDollar(m);
      Prefix(m.Text(), s);
      assert s[1..] == PlainValue(t) && ([c] + t)[1..] == t;
      if !m.escaped {
        assert m.Text()[1..] == m.Braces();
        Unchanged(m.Braces(), t);
        Prefix(m.Text(), [c] + t);
        FirstIsAll([c] + t, m);
      } else {
        var plain := Match(false, m.name);
        assert m.Text()[1..] == plain.Text() && plain.Text()[1..] == m.Braces();
        Prefix(plain.Text(), PlainValue(t));
        assert PlainValue(t)[1] == '{' by {
          assert PlainValue(t)[1] == plain.Text()[1];
        }
        assert First(t) == None;
        assert PlainValue(t) == [t[0]] + PlainValue(t[1..]);
        Unchanged(m.Braces(), t[1..]);
        Prefix(plain.Text(), t);
        Prefix(m.Text(), [c] + t);
        FirstIsAll([c] + t, m);
      }
    }
  }

  lemma EscapedStep(name: string, rest: string, f: Match -> string)
    requires IsName(name)
    ensures Names(Match(true, name).Text() + rest) == Names(rest)
    ensures ReplaceAll(Match(true, name).Text() + rest, f) == f(Match(true, name)) + ReplaceAll(rest, f)
  {
    var e := Match(true, name);
    MatchStep(e, rest, f);
    assert ([e] + FindAll(rest))[1..] == FindAll(rest);
  }

  lemma ThirdDollarStep(name: string, rest: string, f: Match -> string)
    ensures Names(['$'] + Match(true, name).Text() + rest) == Names(Match(true, name).Text() + rest)
    ensures ReplaceAll(['$'] + Match(true, name).Text() + rest, f) ==
        ['$'] + ReplaceAll(Match(true, name).Text() + rest, f)
  {
    var tail := Match(true, name).Text() + rest;
    assert ['$'] + Match(true, name).Text() + rest == ['$'] + tail;
    assert (['$'] + tail)[1..] == tail && (['$'] + tail)[2..] == tail[1..];
    PlainStep('$', tail, f);
  }

  // A match as a document writes it.
  function Written(m: Match): string {
    (if m.escaped then ['$'] else []) + Match(true, m.name).Text()
  }

  lemma PlainOfMatch(m: Match, rest: string)
    requires IsName(m.name)
    ensures PlainValue(m.Text() + rest) == Written(m) + PlainValue(rest)
  {
    MatchStep(m, rest, Dollar);
  }

  lemma WrittenStep(m: Match, rest: string, f: Match -> string)
    requires IsName(m.name)
    ensures Names(Written(m) + rest) == Names(rest)
    ensures ReplaceAll(Written(m) + rest, f) ==
        (if m.escaped then ['$'] else []) + (f(Match(true, m.name)) + ReplaceAll(rest, f))
  {
    EscapedStep(m.name, rest, f);
    ThirdDollarStep(m.name, rest, f);
    assert !m.escaped ==> Written(m) == Match(true, m.name).Text();
  }

  // What reading makes of a match, once it is escaped, and of all else.
  lemma ReadMatch(m: Match, rest: string, f: Match -> string)
    requires IsName(m.name)
    ensures Names(PlainValue(m.Text() + rest)) == Names(PlainValue(rest))
    ensures ReplaceAll(PlainValue(m.Text() + rest), f)
         == (if m.escaped then ['$'] else []) + (f(Match(true, m.name)) + ReplaceAll(PlainValue(rest), f))
  {
    PlainOfMatch(m, rest);
    WrittenStep(m, PlainValue(rest), f);
  }

  lemma ReadOther(c: char, rest: string, f: Match -> string)
    requires First([c] + rest) == None
    ensures Names(PlainValue([c] + rest)) == Names(PlainValue(rest))
    ensures ReplaceAll(PlainValue([c] + rest), f) == [c] + ReplaceAll(PlainValue(rest), f)
  {
    PlainStep(c, rest, Dollar);
    NoNewMatch(c, rest);
    PlainStep(c, PlainValue(rest), f);
  }

  lemma AsItWas(m: Match, rest: string)
    ensures (if m.escaped then ['$'] else []) + (Match(false, m.name).Text() + rest) == m.Text() + rest
  {
  }

  lemma BackMatch(m: Match, rest: string, f: Match -> string)
    requires IsName(m.name) && f(Match(true, m.name)) == Match(false, m.name).Text()
    requires ReplaceAll(PlainValue(rest), f) == rest
    ensures ReplaceAll(PlainValue(m.Text() + rest), f) == m.Text() + rest
  {
    ReadMatch(m, rest, f);
    AsItWas(m, rest);
  }

  /** Whatever v is: nothing in PlainValue(v) is a placeholder, and whoever undoes the escape gets v back. */
  lemma {:induction false} ReadsBack(v: string, f: Match -> string)
    requires forall name :: f(Match(true, name)) == Match(false, name).Text()
    ensures Names(PlainValue(v)) == []
    ensures ReplaceAll(PlainValue(v), f) == v
    decreases |v|
  {
    if v != "" {
      var first := First(v);
      if first.Some? {
        var m, rest := first.value, v[|first.value.Text()|..];
        assert v == m.Text() + rest;
        ReadsBack(rest, f);
        ReadMatch(m, rest, f);
        BackMatch(m, rest, f);
      } else {
        assert v == [v[0]] + v[1..];
        ReadsBack(v[1..], f);
        ReadOther(v[0], v[1..], f);
      }
    }
  }

  lemma LeftMatch(m: Match, rest: string, f: Match -> string)
    requires IsName(m.name) && f(Match(true, m.name)) == Match(true, m.name).Text()
    requires ReplaceAll(PlainValue(rest), f) == PlainValue(rest)
    ensures ReplaceAll(PlainValue(m.Text() + rest), f) == PlainValue(m.Text() + rest)
  {
    ReadMatch(m, rest, f);
    PlainOfMatch(m, rest);
    WrittenThen(m, PlainValue(rest));
  }

  lemma WrittenThen(m: Match, rest: string)
    ensures Written(m) + rest == (if m.escaped then ['$'] else []) + (Match(true, m.name).Text() + rest)
  {
  }

  /** Whoever leaves the escaped form alone changes nothing. */
  lemma {:induction false} LeftAlone(v: string, f: Match -> string)
    requires forall name :: f(Match(true, name)) == Match(true, name).Text()
    ensures ReplaceAll(PlainValue(v), f) == PlainValue(v)
    decreases |v|
  {
    if v != "" {
      var first := First(v);
      if first.Some? {
        var m, rest := first.value, v[|first.value.Text()|..];
        assert v == m.Text() + rest;
        LeftAlone(rest, f);
        LeftMatch(m, rest, f);
      } else {
        assert v == [v[0]] + v[1..];
        LeftAlone(v[1..], f);
        ReadOther(v[0], v[1..], f);
      }
    }
  }

  /**
   An env value given out in a document and sent again arrives as it was,
   whatever the command line's variables and the stored secrets are, and refers
   to no secret; any other text is itself again once the command line has read it.
   */
  lemma PlainValuesSurvive(v: string, vars: map<string, string>, secrets: map<string, string>)
    ensures Names(PlainValue(v)) == []
    ensures Expanded(PlainValue(v), vars, true) == PlainValue(v)
    ensures Filled(Expanded(PlainValue(v), vars, true), secrets) == v
    ensures Expanded(PlainValue(v), vars, false) == v
  {
    LeftAlone(v, Variable(vars, true));
    ReadsBack(v, Variable(vars, false));
    ReadsBack(v, Secret(secrets));
  }

  lemma NamesOfMore(m: Match, more: seq<Match>)
    ensures NamesOf([m] + more) == (if m.escaped then [] else [m.name]) + NamesOf(more)
  {
    assert ([m] + more)[1..] == more;
  }

  /** The secrets a text names are all that filling it in asks for; a text without a match stays as it is. */
  lemma {:induction false} FilledFromTheNamed(s: string, secrets: map<string, string>, all: map<string, string>)
    requires forall name :: name in Names(s) ==>
      (name in secrets <==> name in all) && (name in all ==> secrets[name] == all[name])
    ensures Filled(s, secrets) == Filled(s, all)
    ensures FindAll(s) == [] ==> Filled(s, secrets) == s
    decreases |s|
  {
    if s != "" {
      match First(s) {
        case Some(m) =>
          var rest := s[|m.Text()|..];
          NamesOfMore(m, FindAll(rest));
          assert !m.escaped ==> m.name in Names(s);
          FilledFromTheNamed(rest, secrets, all);
        case None =>
          FilledFromTheNamed(s[1..], secrets, all);
      }
    }
  }

  // The characters of names.
  lemma NamesAre(c: char, s: string)
    ensures IsName([c]) <==> 'A' <= c <= 'Z' || 'a' <= c <= 'z' || c == '_'
    ensures IsName(s + [c]) <==>
      if s == "" then IsName([c]) else IsName(s) && (IsName([c]) || '0' <= c <= '9')
  {
    var more := s + [c];
    if s == "" {
      assert more == [c];
    } else {
      assert more[0] == s[0] && more[|s|] == c;
      assert forall k :: 0 <= k < |s| ==> more[k] == s[k];
    }
  }

  lemma NoMatchWithin(c: char, rest: string)
    requires c != '$'
    ensures First([c] + rest) == None
  {
  }

  lemma PlainFirst(c: char, t: string, f: Match -> string)
    requires c != '$'
    ensures ReplaceAll([c] + t, f) == [c] + ReplaceAll(t, f)
  {
    NoMatchWithin(c, t);
    PlainStep(c, t, f);
  }

  lemma OneAhead(c: char, p: string, rest: string)
    ensures [c] + (p + rest) == [c] + p + rest
  {
  }

  lemma {:induction false} PlainStays(p: string, rest: string, f: Match -> string)
    requires '$' !in p
    ensures ReplaceAll(p + rest, f) == p + ReplaceAll(rest, f)
  {
    if p == "" {
      assert p + rest == rest;
    } else {
      assert p[0] in p && forall c :: c in p[1..] ==> c in p;
      PlainStays(p[1..], rest, f);
      PlainFirst(p[0], p[1..] + rest, f);
      OneAhead(p[0], p[1..], rest);
      OneAhead(p[0], p[1..], ReplaceAll(rest, f));
      assert p == [p[0]] + p[1..];
    }
  }

  // What stands for a match in the middle of a text.
  lemma Replaces(p: string, m: Match, rest: string, f: Match -> string)
    requires '$' !in p && IsName(m.name)
    ensures ReplaceAll(p + (m.Text() + rest), f) == p + (f(m) + ReplaceAll(rest, f))
  {
    PlainStays(p, m.Text() + rest, f);
    MatchStep(m, rest, f);
  }

  /**
   What the agent fills in, from the left: a name that is stored by its value, one that is not by
   itself, and the escaped form by the literal it stands for; all else stays.
   */
  lemma FillsIn(p: string, n: string, rest: string, secrets: map<string, string>)
    requires '$' !in p && IsName(n)
    ensures Filled(p + ("${" + n + "}" + rest), secrets)
         == p + ((if n in secrets then secrets[n] else "${" + n + "}") + Filled(rest, secrets))
    ensures Filled(p + ("$${" + n + "}" + rest), secrets) == p + ("${" + n + "}" + Filled(rest, secrets))
    ensures Filled(p, secrets) == p
  {
    MatchTexts(n);
    Replaces(p, Match(false, n), rest, Secret(secrets));
    Replaces(p, Match(true, n), rest, Secret(secrets));
    PlainStays(p, "", Secret(secrets));
    assert p + "" == p;
  }

  lemma NoNameFirst(c: char, t: string)
    requires c != '$'
    ensures FindAll([c] + t) == FindAll(t)
  {
    NoMatchWithin(c, t);
    PlainStep(c, t, Dollar);
  }

  lemma {:induction false} NoNames(p: string, rest: string)
    requires '$' !in p
    ensures FindAll(p + rest) == FindAll(rest)
  {
    if p == "" {
      assert p + rest == rest;
    } else {
      assert p[0] in p && forall c :: c in p[1..] ==> c in p;
      NoNames(p[1..], rest);
      NoNameFirst(p[0], p[1..] + rest);
      OneAhead(p[0], p[1..], rest);
      assert p == [p[0]] + p[1..];
    }
  }

  /** What a text refers to, from the left: each name in braces, unless it is escaped. */
  lemma NamesFromTheLeft(p: string, n: string, rest: string)
    requires '$' !in p && IsName(n)
    ensures Names(p + ("${" + n + "}" + rest)) == [n] + Names(rest)
    ensures Names(p + ("$${" + n + "}" + rest)) == Names(rest)
    ensures Names(p) == []
  {
    MatchTexts(n);
    NoNames(p, Match(false, n).Text() + rest);
    NoNames(p, Match(true, n).Text() + rest);
    MatchStep(Match(false, n), rest, Dollar);
    MatchStep(Match(true, n), rest, Dollar);
    NamesOfMore(Match(false, n), FindAll(rest));
    NamesOfMore(Match(true, n), FindAll(rest));
    NoNames(p, "");
    assert p + "" == p;
  }

  lemma MatchTexts(n: string)
    ensures Match(false, n).Text() == "${" + n + "}" && Match(true, n).Text() == "$${" + n + "}"
    ensures "$" + Match(true, n).Braces() == "${" + n + "}"
  {
  }

  /**
   What the command line fills in: the same of its variables, but for the escaped form in env values,
   which it leaves.
   */
  lemma Expands(p: string, n: string, rest: string, vars: map<string, string>, env: bool)
    requires '$' !in p && IsName(n)
    ensures Expanded(p + ("${" + n + "}" + rest), vars, env)
         == p + ((if n in vars then vars[n] else "${" + n + "}") + Expanded(rest, vars, env))
    ensures Expanded(p + ("$${" + n + "}" + rest), vars, env)
         == p + ((if env then "$${" + n + "}" else "${" + n + "}") + Expanded(rest, vars, env))
    ensures Expanded(p, vars, env) == p
  {
    MatchTexts(n);
    Replaces(p, Match(false, n), rest, Variable(vars, env));
    Replaces(p, Match(true, n), rest, Variable(vars, env));
    PlainStays(p, "", Variable(vars, env));
    assert p + "" == p;
  }

  /** A stored name by itself is its value. */
  lemma StoredIsFilled(n: string, secrets: map<string, string>)
    requires IsName(n) && n in secrets
    ensures Filled("${" + n + "}", secrets) == secrets[n]
  {
    FillsIn("", n, "", secrets);
    assert "" + ("${" + n + "}" + "") == "${" + n + "}";
    assert "" + (secrets[n] + "") == secrets[n];
  }
}
