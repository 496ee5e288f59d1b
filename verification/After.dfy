/**
The dependency graph of a deploy file (validateAfter in pkg/spec/multi.go): who
waits for whom, and the depth-first search for those who wait for themselves.
*/
module After {
  import opened Options
  import Text

  // The names of the entries of a file, and whom each of them waits for.
  datatype Entries = Entries(names: seq<string>, after: seq<seq<string>>) {
    ghost predicate Shaped() {
      |names| == |after|
    }

    // Names are given and unique, and every dependency is another entry.
    ghost predicate Complete() {
      && (forall i :: 0 <= i < |names| ==> names[i] != "")
      && (forall i, j :: 0 <= i < j < |names| ==> names[i] != names[j])
      && Shaped()
      && (forall i, k :: 0 <= i < |after| && 0 <= k < |after[i]| ==> after[i][k] in names && after[i][k] != names[i])
    }

    // i waits for j.
    ghost predicate Edge(i: nat, j: nat) {
      i < |after| && j < |names| && names[j] in after[i]
    }

    ghost predicate Walk(w: seq<nat>) {
      && (forall k :: 0 <= k < |w| ==> w[k] < |names|)
      && (forall k, l :: 0 <= k && l == k + 1 && l < |w| ==> Edge(w[k], w[l]))
    }

    ghost predicate Cycle(w: seq<nat>) {
      |w| > 1 && Walk(w) && w[0] == w[|w| - 1]
    }

    ghost predicate HasCycle() {
      exists w :: Cycle(w)
    }

    // Everyone is named once, after all they wait for.
    ghost predicate Order(order: seq<nat>) {
      && (forall i :: 0 <= i < |names| ==> i in order)
      && Sound(order)
    }

    ghost predicate Sound(order: seq<nat>) {
      && (forall k :: 0 <= k < |order| ==> order[k] < |names|)
      && (forall k, l :: 0 <= k < l < |order| ==> order[k] != order[l])
      && (forall k, j :: 0 <= k < |order| && Edge(order[k], j) ==> j in order[..k])
    }
  }

  datatype Complaint =
    | SameName(entry: nat, first: nat)
    | WaitsForItself(entry: nat, dep: string)
    | UnknownName(entry: nat, dep: string)
    | Circle(entry: nat, names: seq<string>)

  datatype Mark = Unseen | Visiting | Finished

  // The names of a walk.
  ghost function NamesOf(e: Entries, w: seq<nat>): seq<string>
    requires forall k :: 0 <= k < |w| ==> w[k] < |e.names|
  {
    seq(|w|, k requires 0 <= k < |w| => e.names[w[k]])
  }

  lemma {:induction false} OrderGoesDown(e: Entries, order: seq<nat>, w: seq<nat>) returns (a: nat, b: nat)
    requires e.Order(order) && e.Walk(w) && |w| > 1
    ensures b < a < |order| && order[a] == w[0] && order[b] == w[|w| - 1]
  {
    assert w[0] in order;
    a :| 0 <= a < |order| && order[a] == w[0];
    assert e.Edge(w[0], w[1]);
    var c :| 0 <= c < a && order[c] == w[1];
    if |w| == 2 {
      b := c;
    } else {
      var a', b' := OrderGoesDown(e, order, w[1..]);
      assert a' == c;
      b := b';
    }
  }

  /** Where everyone can be put after what they wait for, nobody waits for themselves. */
  lemma OrderedIsAcyclic(e: Entries, order: seq<nat>)
    requires e.Order(order)
    ensures !e.HasCycle()
  {
    forall w | e.Cycle(w) ensures false {
      var a, b := OrderGoesDown(e, order, w);
    }
  }

  function IndexOf(list: seq<string>, s: string): (i: int)
    ensures i == -1 <==> s !in list
    ensures i != -1 ==> 0 <= i < |list| && list[i] == s && s !in list[..i]
  {
    if list == [] then -1
    else if list[0] == s then 0
    else
      var i := IndexOf(list[1..], s);
      if i == -1 then -1
      else
        assert forall k :: 0 < k < i + 1 ==> list[k] == list[1..][k - 1];
        i + 1
  }

  // The search is in the middle of the entries on the stack, and done with those in order.
  ghost predicate Coherent(e: Entries, marks: seq<Mark>, stack: seq<nat>, order: seq<nat>) {
    && |marks| == |e.names|
    && e.Walk(stack)
    && (forall k, l :: 0 <= k < l < |stack| ==> stack[k] != stack[l])
    && (forall i :: 0 <= i < |marks| ==> (marks[i] == Visiting <==> i in stack))
    && e.Sound(order)
    && (forall i :: 0 <= i < |marks| ==> (marks[i] == Finished <==> i in order))
  }

  lemma Enter(e: Entries, marks: seq<Mark>, stack: seq<nat>, order: seq<nat>, i: nat)
    requires Coherent(e, marks, stack, order) && i < |marks| && marks[i] == Unseen
    requires stack != [] ==> e.Edge(stack[|stack| - 1], i)
    ensures Coherent(e, marks[i := Visiting], stack + [i], order)
  {
  }

  lemma Leave(e: Entries, marks: seq<Mark>, stack: seq<nat>, order: seq<nat>, i: nat)
    requires Coherent(e, marks, stack + [i], order)
    requires forall j :: e.Edge(i, j) ==> j in order
    ensures i < |marks| && Coherent(e, marks[i := Finished], stack, order + [i])
  {
    var longer := stack + [i];
    assert longer[|stack|] == i && i in longer;
    assert forall k :: 0 <= k < |stack| ==> longer[k] == stack[k];
    LeaveOrder(e, order, i);
    assert i !in stack;
    forall j | 0 <= j < |marks| && j != i ensures j in longer <==> j in stack {}
  }

  lemma LeaveOrder(e: Entries, order: seq<nat>, i: nat)
    requires e.Sound(order) && i < |e.names| && i !in order
    requires forall j :: e.Edge(i, j) ==> j in order
    ensures e.Sound(order + [i])
  {
    var longer := order + [i];
    forall k, j | 0 <= k < |longer| && e.Edge(longer[k], j) ensures j in longer[..k] {
      assert longer[..k] == order[..k];
    }
  }

  // From where an entry is on the stack to the end of it, and back.
  lemma BackEdge(e: Entries, stack: seq<nat>, at: nat, i: nat)
    requires e.Walk(stack) && at < |stack| && stack[|stack| - 1] == i && e.Edge(i, stack[at])
    ensures var w := stack[at..] + [stack[at]]; e.Cycle(w) && w[|w| - 2] == i
  {
    var w := stack[at..] + [stack[at]];
    forall k, l | 0 <= k && l == k + 1 && l < |w| ensures e.Edge(w[k], w[l]) {
      if l < |w| - 1 {
        assert w[k] == stack[at + k] && w[l] == stack[at + l];
        assert e.Edge(stack[at + k], stack[at + l]);
      }
    }
  }

  lemma OnPath(e: Entries, stack: seq<nat>, j: nat)
    requires e.Walk(stack) && j in stack
    ensures e.names[j] in NamesOf(e, stack)
  {
    var k :| 0 <= k < |stack| && stack[k] == j;
    assert NamesOf(e, stack)[k] == e.names[j];
  }

  lemma Circles(e: Entries, stack: seq<nat>, i: nat, at: nat, dep: string)
    requires e.Complete() && e.Walk(stack) && at < |stack| && stack[|stack| - 1] == i
    requires NamesOf(e, stack)[at] == dep && dep in e.after[i]
    ensures exists w :: e.Cycle(w) && w[|w| - 2] == i && NamesOf(e, stack)[at..] + [dep] == NamesOf(e, w)
  {
    BackEdge(e, stack, at, i);
    var w := stack[at..] + [stack[at]];
    assert NamesOf(e, stack)[at..] + [dep] == NamesOf(e, w);
  }

  ghost function LeftIn(marks: seq<Mark>): set<nat> {
    set i: nat | i < |marks| && marks[i] == Unseen
  }

  class Search {
    const e: Entries
    const index: map<string, nat>
    const state: array<Mark>
    var path: seq<string>
    ghost var stack: seq<nat> // the entries whose names are on path
    ghost var order: seq<nat> // the finished entries, in the order they were finished

    ghost predicate Indexed() {
      && e.Complete()
      && (forall i :: 0 <= i < |e.names| ==> e.names[i] in index && index[e.names[i]] == i)
      && (forall n :: n in index ==> index[n] < |e.names| && e.names[index[n]] == n)
    }

    ghost predicate Valid()
      reads this, state
    {
      Indexed() && Coherent(e, state[..], stack, order) && path == NamesOf(e, stack)
    }

    constructor (e: Entries, index: map<string, nat>)
      requires e.Complete()
      requires forall i :: 0 <= i < |e.names| ==> e.names[i] in index && index[e.names[i]] == i
      requires forall n :: n in index ==> index[n] < |e.names| && e.names[index[n]] == n
      ensures Valid() && this.e == e && stack == [] && order == [] && fresh(state)
      ensures forall i :: 0 <= i < state.Length ==> state[i] == Unseen
    {
      this.e, this.index := e, index;
      state := new Mark[|e.names|](_ => Unseen);
      path, stack, order := [], [], [];
    }

    // The names from the first visit of an entry to the one that waits for it again.
    method Close(i: nat, dep: string) returns (cycle: seq<string>)
      requires Valid() && stack != [] && stack[|stack| - 1] == i && dep in e.after[i]
      requires dep in index && state[index[dep]] == Visiting
      ensures exists w :: e.Cycle(w) && w[|w| - 2] == i && cycle == NamesOf(e, w)
    {
      assert state[..][index[dep]] == Visiting;
      OnPath(e, stack, index[dep]);
      var at := IndexOf(path, dep);
      cycle := path[at..] + [dep];
      Circles(e, stack, i, at, dep);
    }

    method Visit(i: nat) returns (circle: Option<Complaint>)
      requires Valid() && i < |e.names| && state[i] == Unseen
      requires stack != [] ==> e.Edge(stack[|stack| - 1], i)
      modifies this, state
      ensures circle.Some? ==> exists w :: e.Cycle(w) && circle.value == Circle(w[|w| - 2], NamesOf(e, w))
      ensures circle.None? ==> Valid() && stack == old(stack) && i in order && old(order) <= order
      ensures circle.None? ==> LeftIn(state[..]) < LeftIn(old(state[..]))
      decreases LeftIn(state[..]), 0
    {
      Begin(i);
      circle := Descend(i);
      if circle.None? {
        End(i);
      }
    }

    method Begin(i: nat)
      requires Valid() && i < |e.names| && state[i] == Unseen
      requires stack != [] ==> e.Edge(stack[|stack| - 1], i)
      modifies this, state
      ensures Valid() && stack == old(stack) + [i] && order == old(order)
      ensures LeftIn(state[..]) < LeftIn(old(state[..]))
    {
      Enter(e, state[..], stack, order, i);
      Marked(state[..], i, Visiting);
      state[i] := Visiting;
      assert state[..] == old(state[..])[i := Visiting];
      path := path + [e.names[i]];
      stack := stack + [i];
      assert path == NamesOf(e, stack);
    }

    method End(i: nat)
      requires Valid() && i < |e.names| && stack != [] && stack[|stack| - 1] == i
      requires forall l :: 0 <= l < |e.after[i]| ==> index[e.after[i][l]] in order
      modifies this, state
      ensures Valid() && stack == old(stack)[..|old(stack)| - 1] && order == old(order) + [i]
      ensures LeftIn(state[..]) <= LeftIn(old(state[..]))
    {
      ghost var below := stack[..|stack| - 1];
      assert stack == below + [i];
      AllDone(i);
      Leave(e, state[..], below, order, i);
      Marked(state[..], i, Finished);
      path := path[..|path| - 1];
      state[i] := Finished;
      assert state[..] == old(state[..])[i := Finished];
      stack := below;
      order := order + [i];
      assert path == NamesOf(e, stack);
    }

    // The dependencies of the entry being visited, one after the other.
    method Descend(i: nat) returns (circle: Option<Complaint>)
      requires Valid() && i < |e.names| && stack != [] && stack[|stack| - 1] == i
      modifies this, state
      ensures circle.Some? ==> exists w :: e.Cycle(w) && circle.value == Circle(w[|w| - 2], NamesOf(e, w))
      ensures circle.None? ==> Valid() && stack == old(stack) && old(order) <= order
      ensures circle.None? ==> forall l :: 0 <= l < |e.after[i]| ==> index[e.after[i][l]] in order
      ensures circle.None? ==> LeftIn(state[..]) <= LeftIn(old(state[..]))
      decreases LeftIn(state[..]), 1
    {
      for k := 0 to |e.after[i]|
        invariant Valid() && stack == old(stack) && old(order) <= order
        invariant forall l :: 0 <= l < k ==> index[e.after[i][l]] in order
        invariant LeftIn(state[..]) <= LeftIn(old(state[..]))
      {
        var dep := e.after[i][k];
        var j := index[dep];
        if state[j] == Visiting {
          var cycle := Close(i, dep);
          return Some(Circle(i, cycle));
        } else if state[j] == Unseen {
          assert e.Edge(i, j);
          circle := Visit(j);
          if circle.Some? {
            return;
          }
        } else {
          assert state[..][j] == Finished;
        }
      }
      circle := None;
    }

    lemma AllDone(i: nat)
      requires Valid() && i < |e.names| && forall l :: 0 <= l < |e.after[i]| ==> index[e.after[i][l]] in order
      ensures forall j :: e.Edge(i, j) ==> j in order
    {
      forall j: nat | e.Edge(i, j) ensures j in order {
        var l :| 0 <= l < |e.after[i]| && e.after[i][l] == e.names[j];
      }
    }
  }

  lemma Marked(marks: seq<Mark>, i: nat, mark: Mark)
    requires i < |marks| && mark != Unseen
    ensures LeftIn(marks[i := mark]) <= LeftIn(marks)
    ensures marks[i] == Unseen ==> LeftIn(marks[i := mark]) < LeftIn(marks)
  {
    if marks[i] == Unseen {
      assert i in LeftIn(marks) && i !in LeftIn(marks[i := mark]);
    }
  }

  // What may be complained about.
  ghost predicate Deserved(e: Entries, c: Complaint) {
    match c
    case SameName(i, first) =>
      first < i < |e.names| && e.names[i] != "" && e.names[first] == e.names[i] && e.names[first] !in e.names[..first]
    case WaitsForItself(i, dep) => i < |e.after| && i < |e.names| && dep in e.after[i] && dep == e.names[i]
    case UnknownName(i, dep) =>
      i < |e.after| && i < |e.names| && dep in e.after[i] && dep != e.names[i] && (dep == "" || dep !in e.names)
    case Circle(i, names) =>
      e.Complete() && exists w :: e.Cycle(w) && i == w[|w| - 2] && names == NamesOf(e, w)
  }

  ghost predicate Indexes(index: map<string, nat>, names: seq<string>) {
    && (forall n :: n in index ==> index[n] < |names| && names[index[n]] == n && n != "" && n !in names[..index[n]])
    && (forall i :: 0 <= i < |names| && names[i] != "" ==> names[i] in index)
    && |index| <= |names|
    && (|index| == |names| <==> Unique(names))
  }

  ghost predicate Unique(names: seq<string>) {
    && (forall i :: 0 <= i < |names| ==> names[i] != "")
    && (forall i, j :: 0 <= i < j < |names| ==> names[i] != names[j])
  }

  lemma IndexMore(index: map<string, nat>, names: seq<string>, name: string)
    requires Indexes(index, names)
    ensures name == "" || name in index ==> Indexes(index, names + [name])
    ensures name != "" && name !in index ==> Indexes(index[name := |names|], names + [name])
  {
    var more := names + [name];
    assert forall i :: 0 <= i < |names| ==> more[i] == names[i];
    assert more[|names|] == name && more[..|names|] == names;
    forall n | n in index ensures more[..index[n]] == names[..index[n]] {}
    if name in names { 
      var k :| 0 <= k < |names| && names[k] == name;
      assert !Unique(more) by { assert more[k] == more[|names|]; }
    }
    if Unique(more) { assert Unique(names); }
    assert |index[name := |names|]| == |index| + if name in index then 0 else 1;
  }

  // The repeated names among the first n entries.
  ghost predicate Repeated(e: Entries, n: nat, complaints: seq<Complaint>) {
    forall c :: c in complaints <==> (c.SameName? && c.entry < n && Deserved(e, c))
  }

  lemma RepeatedMore(e: Entries, index: map<string, nat>, i: nat, complaints: seq<Complaint>)
    requires i < |e.names| && Indexes(index, e.names[..i]) && Repeated(e, i, complaints)
    ensures e.names[i] == "" || e.names[i] !in index ==> Repeated(e, i + 1, complaints)
    ensures e.names[i] != "" && e.names[i] in index ==>
              Repeated(e, i + 1, complaints + [SameName(i, index[e.names[i]])])
  {
    if e.names[i] in index {
      FirstNamed(e, index, i);
    } else if e.names[i] != "" {
      forall c: Complaint | c.SameName? && c.entry == i ensures !Deserved(e, c) {
        assert c.first < i ==> e.names[..i][c.first] == e.names[c.first];
      }
    }
  }

  method IndexName(e: Entries, i: nat, index: map<string, nat>, complaints: seq<Complaint>)
    returns (index': map<string, nat>, complaints': seq<Complaint>)
    requires i < |e.names| && Indexes(index, e.names[..i]) && Repeated(e, i, complaints)
    ensures Indexes(index', e.names[..i + 1]) && Repeated(e, i + 1, complaints')
  {
    IndexMore(index, e.names[..i], e.names[i]);
    RepeatedMore(e, index, i, complaints);
    assert e.names[..i + 1] == e.names[..i] + [e.names[i]];
    index', complaints' := index, complaints;
    var name := e.names[i];
    if name == "" {
      return;
    }
    if name in index {
      complaints' := complaints + [SameName(i, index[name])];
    } else {
      index' := index[name := i];
    }
  }

  // The first loop: where each name stands, and who repeats one.
  method IndexNames(e: Entries) returns (index: map<string, nat>, complaints: seq<Complaint>)
    ensures Indexes(index, e.names)
    ensures Repeated(e, |e.names|, complaints)
  {
    index, complaints := map[], [];
    for i := 0 to |e.names|
      invariant Indexes(index, e.names[..i])
      invariant Repeated(e, i, complaints)
    {
      index, complaints := IndexName(e, i, index, complaints);
    }
    assert e.names[..|e.names|] == e.names;
  }

  lemma NotBefore(names: seq<string>, a: nat, b: nat)
    requires a < |names| && b < |names| && names[a] == names[b] && names[b] !in names[..b]
    ensures b <= a
  {
    assert forall k :: 0 <= k < b ==> names[..b][k] == names[k];
  }

  lemma FirstNamed(e: Entries, index: map<string, nat>, i: nat)
    requires i < |e.names| && Indexes(index, e.names[..i]) && e.names[i] in index
    ensures forall c: Complaint :: c.SameName? && c.entry == i ==> (Deserved(e, c) <==> c.first == index[e.names[i]])
  {
    var f := index[e.names[i]];
    assert e.names[..i][f] == e.names[f] && e.names[..i][..f] == e.names[..f];
    forall c: Complaint | c.SameName? && c.entry == i && Deserved(e, c) ensures c.first == f {
      NotBefore(e.names, c.first, f);
      NotBefore(e.names, f, c.first);
    }
  }

  // The second loop: who waits for themselves, or for nobody.
  method CheckNames(e: Entries, index: map<string, nat>) returns (complaints: seq<Complaint>)
    requires e.Shaped() && Indexes(index, e.names)
    ensures forall c :: c in complaints <==> ((c.WaitsForItself? || c.UnknownName?) && Deserved(e, c))
  {
    complaints := [];
    for i := 0 to |e.after|
      invariant forall c :: c in complaints
                            <==> ((c.WaitsForItself? || c.UnknownName?) && c.entry < i && Deserved(e, c))
    {
      ghost var before := complaints;
      for k := 0 to |e.after[i]|
        invariant forall c :: c in complaints
                              <==> (c in before || ((c.WaitsForItself? || c.UnknownName?) && c.entry == i
                                                    && Deserved(e, c) && c.dep in e.after[i][..k]))
      {
        var dep := e.after[i][k];
        assert e.after[i][..k + 1] == e.after[i][..k] + [dep];
        if dep == e.names[i] {
          complaints := complaints + [WaitsForItself(i, dep)];
        } else if dep !in index {
          complaints := complaints + [UnknownName(i, dep)];
        }
      }
      assert e.after[i][..|e.after[i]|] == e.after[i];
    }
  }

  // The search is entered exactly for complete entries, and they deserve no other complaint.
  lemma Guard(e: Entries, index: map<string, nat>, wrong: seq<Complaint>)
    requires e.Shaped() && Indexes(index, e.names)
    requires forall c :: c in wrong <==> ((c.WaitsForItself? || c.UnknownName?) && Deserved(e, c))
    ensures |wrong| == 0 && |index| == |e.names| <==> e.Complete()
    ensures e.Complete() ==> forall c :: Deserved(e, c) ==> c.Circle?
  {
    if |wrong| > 0 {
      assert wrong[0] in wrong;
    } else {
      forall i, k | 0 <= i < |e.after| && 0 <= k < |e.after[i]|
        ensures e.after[i][k] in e.names && e.after[i][k] != e.names[i] {
        var dep := e.after[i][k];
        assert WaitsForItself(i, dep) !in wrong && UnknownName(i, dep) !in wrong;
      }
    }
  }

  // One entry of the outer loop.
  method Look(search: Search, i: nat) returns (circle: Option<Complaint>)
    requires search.Valid() && search.stack == [] && i < |search.e.names|
    modifies search, search.state
    ensures circle.Some? ==> exists w :: search.e.Cycle(w) && circle.value == Circle(w[|w| - 2], NamesOf(search.e, w))
    ensures circle.None? ==> search.Valid() && search.stack == []
    ensures circle.None? ==> i in search.order && old(search.order) <= search.order
  {
    circle := None;
    if search.state[i] == Unseen {
      circle := search.Visit(i);
    } else {
      assert search.state[..][i] == Finished;
    }
  }

  method FindCircle(e: Entries, index: map<string, nat>) returns (circle: Option<Complaint>)
    requires e.Complete() && Indexes(index, e.names)
    ensures circle.Some? ==> circle.value.Circle? && Deserved(e, circle.value)
    ensures circle.None? ==> exists order :: e.Order(order)
  {
    assert forall i :: 0 <= i < |e.names| ==> e.names[i] in index && index[e.names[i]] == i;
    var search := new Search(e, index);
    for i := 0 to |e.names|
      invariant search.Valid() && search.stack == []
      invariant forall k :: 0 <= k < i ==> k in search.order
    {
      circle := Look(search, i);
      if circle.Some? {
        return;
      }
    }
    assert e.Order(search.order);
    circle := None;
  }

  /**
   What is wrong with who waits for whom. Names are complained about exactly
   where they deserve it. Past that, a circle is reported if and only if there
   is one, and it is a closed walk of real edges, reported for the entry whose
   edge closes it.
   */
  method ValidateAfter(e: Entries) returns (complaints: seq<Complaint>)
    requires e.Shaped()
    ensures forall c :: c in complaints ==> Deserved(e, c)
    ensures forall c :: Deserved(e, c) && !c.Circle? ==> c in complaints
    ensures e.Complete() ==> (complaints == [] <==> !e.HasCycle())
    ensures e.Complete() && complaints == [] ==> exists order :: e.Order(order)
    ensures forall i, j :: 0 <= i < j < |complaints| && complaints[i].Circle? ==> !complaints[j].Circle?
  {
    var index, repeated := IndexNames(e);
    var wrong := CheckNames(e, index);
    complaints := repeated + wrong;
    assert forall c :: c in complaints <==> c in repeated || c in wrong;
    Guard(e, index, wrong);
    if |wrong| > 0 || |index| != |e.names| {
      return;
    }
    Text.HeadIn(complaints);
    var circle := FindCircle(e, index);
    if circle.Some? {
      complaints := complaints + [circle.value];
      assert circle.value in complaints;
    } else {
      ghost var order :| e.Order(order);
      OrderedIsAcyclic(e, order);
    }
  }
}
