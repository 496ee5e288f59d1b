/** Reading a schedule (pkg/cron/cron.go): Parse, parseField and field.value. */
module CronParse {
  import opened Options
  import opened Text
  import opened Cron
  import Calendar

  datatype Field = Field(min: int, max: int, names: seq<string>)

  const MINUTE := Field(0, 59, [])
  const HOUR := Field(0, 23, [])
  const DAY := Field(1, 31, [])
  const MONTH := Field(1, 12, ["jan", "feb", "mar", "apr", "may", "jun", "jul", "aug", "sep", "oct", "nov", "dec"])
  const WEEKDAY := Field(0, 7, ["sun", "mon", "tue", "wed", "thu", "fri", "sat", "sun"])

  // Every name a field has is a name of one of its values.
  predicate Named(f: Field) {
    f.min <= f.max && |f.names| <= f.max - f.min + 1
  }

  // Simple case folding, as far as it reaches the letters of the names.
  function Fold(c: char): char {
    if 'A' <= c <= 'Z' then (c as int + 32) as char
    else if c == '\U{17F}' then 's'
    else if c == '\U{212A}' then 'k'
    else c
  }

  predicate EqualFold(a: string, b: string) {
    |a| == |b| && forall k :: 0 <= k < |a| ==> Fold(a[k]) == Fold(b[k])
  }

  function NameIndex(names: seq<string>, text: string): (i: nat)
    ensures i <= |names|
    ensures i < |names| <==> exists k :: 0 <= k < |names| && EqualFold(names[k], text)
  {
    if names == [] then 0
    else if EqualFold(names[0], text) then 0
    else
      var i := NameIndex(names[1..], text);
      assert forall k :: 0 < k < |names| ==> names[k] == names[1..][k - 1];
      1 + i
  }

  function FieldValue(f: Field, text: string): (n: Option<int>)
    requires Named(f)
    ensures n.Some? ==> f.min <= n.value <= f.max
  {
    var n := Atoi(text);
    if n.Some? then (if n.value < f.min || n.value > f.max then None else n)
    else
      var i := NameIndex(f.names, text);
      if i < |f.names| then Some(f.min + i) else None
  }

  // The values from lo to hi, step apart.
  datatype Item = Item(lo: int, hi: int, step: int) {
    predicate OnStep(n: int)
      requires step > 0
    {
      (n - lo) % step == 0
    }

    predicate Selects(n: int)
      requires step > 0
    {
      lo <= n <= hi && OnStep(n)
    }
  }

  // The first and the last value of an item, from what stands before its step.
  function ReadRange(f: Field, range: string, hasStep: bool): (r: Option<(int, int)>)
    requires Named(f)
    ensures r.Some? ==> f.min <= r.value.0 <= r.value.1 <= f.max
  {
    if range == "*" then Some((f.min, f.max))
    else if '-' in range then
      var (a, b) := Cut(range, '-');
      var lo, hi := FieldValue(f, a), FieldValue(f, b.value);
      if lo.None? || hi.None? || lo.value > hi.value then None else Some((lo.value, hi.value))
    else
      var n := FieldValue(f, range);
      if n.None? then None else Some((n.value, if hasStep then f.max else n.value))
  }

  // One item of a field's list; None is an error.
  function ReadItem(f: Field, item: string): (r: Option<Item>)
    requires Named(f)
    ensures r.Some? ==> r.value.step > 0 && f.min <= r.value.lo <= r.value.hi <= f.max
  {
    var (range, stepPart) := Cut(item, '/');
    var step := if stepPart.None? then Some(1) else Atoi(stepPart.value);
    if item == "" || step.None? || step.value < 1 then None
    else
      match ReadRange(f, range, stepPart.Some?)
      case None => None
      case Some((lo, hi)) => Some(Item(lo, hi, step.value))
  }

  // A text that is no number is the value of the first name it is the same as, in any case.
  lemma {:induction false} NameReads(names: seq<string>, text: string, k: nat)
    requires k < |names| && EqualFold(names[k], text) && forall j :: 0 <= j < k ==> !EqualFold(names[j], text)
    ensures NameIndex(names, text) == k
  {
    if k > 0 {
      NameReads(names[1..], text, k - 1);
    }
  }

  // A small letter is the same as its capital, and as no other letter.
  lemma SameInAnyCase(c: char, d: char)
    requires 'a' <= c <= 'z' && ('a' <= d <= 'z' || 'A' <= d <= 'Z')
    ensures Fold(c) == Fold(d) <==> d == c || d as int == c as int - 32
  {
  }

  lemma FoldsApart(a: string, b: string, text: string)
    requires EqualFold(a, text) && EqualFold(b, text)
    ensures EqualFold(a, b)
  {
  }

  // Three small letters, as every name of a field is.
  predicate Small(name: string) {
    |name| == 3 && forall i :: 0 <= i < 3 ==> 'a' <= name[i] <= 'z'
  }

  lemma SmallNames(a: string, b: string)
    requires Small(a) && Small(b)
    ensures EqualFold(a, b) <==> a == b
  {
    if EqualFold(a, b) {
      forall i | 0 <= i < 3 ensures a[i] == b[i] {
        assert Fold(a[i]) == Fold(b[i]);
      }
    }
  }

  lemma OtherName(a: string, b: string, text: string)
    requires Small(a) && Small(b) && a != b && EqualFold(b, text)
    ensures !EqualFold(a, text)
  {
    SmallNames(a, b);
    if EqualFold(a, text) { FoldsApart(a, b, text); }
  }

  lemma NameIsNoNumber(name: string, text: string)
    requires Small(name) && EqualFold(name, text)
    ensures Atoi(text).None?
  {
    assert Fold(name[0]) == Fold(text[0]);
    assert !IsDigit(text[0]) && text[0] != '-' && text[0] != '+';
  }

  // A text that is the same as a name of a field, and as none before it.
  lemma NameValue(f: Field, text: string, k: nat)
    requires Named(f) && k < |f.names| && EqualFold(f.names[k], text) && Small(f.names[k])
    requires forall j :: 0 <= j < k ==> !EqualFold(f.names[j], text)
    ensures FieldValue(f, text) == Some(f.min + k)
  {
    NameReads(f.names, text, k);
    NameIsNoNumber(f.names[k], text);
    FieldByName(f, text, k);
  }

  lemma FieldByName(f: Field, text: string, k: nat)
    requires Named(f) && Atoi(text).None? && k < |f.names| && NameIndex(f.names, text) == k
    ensures FieldValue(f, text) == Some(f.min + k)
  {
  }

  lemma MonthsDiffer(j: nat, k: nat)
    requires j < k < 12
    ensures Small(MONTH.names[j]) && Small(MONTH.names[k]) && MONTH.names[j] != MONTH.names[k]
  {
  }

  lemma WeekdaysDiffer(j: nat, k: nat)
    requires j < k < 7
    ensures Small(WEEKDAY.names[j]) && Small(WEEKDAY.names[k]) && WEEKDAY.names[j] != WEEKDAY.names[k]
  {
  }

  lemma FirstOfItsName(f: Field, text: string, k: nat)
    requires Named(f) && k < |f.names| && EqualFold(f.names[k], text) && Small(f.names[k])
    requires forall j :: 0 <= j < k ==> Small(f.names[j]) && f.names[j] != f.names[k]
    ensures FieldValue(f, text) == Some(f.min + k)
  {
    forall j | 0 <= j < k ensures !EqualFold(f.names[j], text) {
      OtherName(f.names[j], f.names[k], text);
    }
    NameValue(f, text, k);
  }

  /** The names of the months are 1 to 12, in any case. */
  lemma MonthNames(text: string, k: nat)
    requires k < 12
    requires EqualFold(["jan", "feb", "mar", "apr", "may", "jun", "jul", "aug", "sep", "oct", "nov", "dec"][k], text)
    ensures FieldValue(MONTH, text) == Some(1 + k)
  {
    forall j: nat | j < k ensures Small(MONTH.names[j]) && MONTH.names[j] != MONTH.names[k] {
      MonthsDiffer(j, k);
    }
    FirstOfItsName(MONTH, text, k);
  }

  lemma WeekdayValue(text: string, k: nat)
    requires k < 7 && EqualFold(WEEKDAY.names[k], text) && Small(WEEKDAY.names[k])
    ensures FieldValue(WEEKDAY, text) == Some(k)
  {
    forall j: nat | j < k ensures Small(WEEKDAY.names[j]) && WEEKDAY.names[j] != WEEKDAY.names[k] {
      WeekdaysDiffer(j, k);
    }
    FirstOfItsName(WEEKDAY, text, k);
  }

  /** The names of the weekdays are 0 to 6 from Sunday on, in any case. */
  lemma WeekdayNames(text: string, k: nat)
    requires k < 7 && EqualFold(["sun", "mon", "tue", "wed", "thu", "fri", "sat"][k], text)
    ensures FieldValue(WEEKDAY, text) == Some(k)
  {
    WeekdayValue(text, k);
  }

  // A value of a field in figures.
  lemma Figures(f: Field, n: int)
    requires Named(f) && 0 <= f.min <= n <= f.max <= MAX_INT
    ensures FieldValue(f, Itoa(n)) == Some(n)
    ensures '-' !in Itoa(n) && '/' !in Itoa(n) && Itoa(n) != "" && Itoa(n) != "*"
  {
    AtoiItoa(n);
    ItoaHasNo(n, '-');
    ItoaHasNo(n, '/');
    assert IsDigit(Itoa(n)[0]);
  }

  lemma WithStep(f: Field, range: string, step: int)
    requires Named(f) && '/' !in range && range != "" && 1 <= step <= MAX_INT
    ensures ReadItem(f, range + "/" + Itoa(step))
         == match ReadRange(f, range, true) case None => None case Some((lo, hi)) => Some(Item(lo, hi, step))
  {
    var item := range + "/" + Itoa(step);
    IndexOfFirst(range, Itoa(step), '/');
    assert item[..|range|] == range && item[|range| + 1..] == Itoa(step);
    AtoiItoa(step);
  }

  lemma WithoutStep(f: Field, range: string)
    requires Named(f) && '/' !in range && range != ""
    ensures ReadItem(f, range)
         == match ReadRange(f, range, false) case None => None case Some((lo, hi)) => Some(Item(lo, hi, 1))
  {
  }

  lemma RangeReads(f: Field, lo: int, hi: int, hasStep: bool)
    requires Named(f) && 0 <= f.min <= lo <= f.max <= MAX_INT && f.min <= hi <= f.max
    ensures '/' !in Itoa(lo) + "-" + Itoa(hi)
    ensures ReadRange(f, Itoa(lo) + "-" + Itoa(hi), hasStep) == if lo <= hi then Some((lo, hi)) else None
  {
    var range := Itoa(lo) + "-" + Itoa(hi);
    Figures(f, lo);
    Figures(f, hi);
    IndexOfFirst(Itoa(lo), Itoa(hi), '-');
    assert range[|Itoa(lo)|] == '-' && range != "*";
    assert range[..|Itoa(lo)|] == Itoa(lo) && range[|Itoa(lo)| + 1..] == Itoa(hi);
  }

  /** What the items of a list mean: `*`, `a`, `a-b`, and each with a step. */
  lemma ItemsMean(f: Field, a: int, b: int, step: int)
    requires Named(f) && 0 <= f.min <= a <= f.max <= MAX_INT && f.min <= b <= f.max && 1 <= step <= MAX_INT
    ensures ReadItem(f, "*") == Some(Item(f.min, f.max, 1))
    ensures ReadItem(f, "*/" + Itoa(step)) == Some(Item(f.min, f.max, step))
    ensures ReadItem(f, Itoa(a)) == Some(Item(a, a, 1))
    ensures ReadItem(f, Itoa(a) + "/" + Itoa(step)) == Some(Item(a, f.max, step))
    ensures ReadItem(f, Itoa(a) + "-" + Itoa(b)) == if a <= b then Some(Item(a, b, 1)) else None
    ensures ReadItem(f, Itoa(a) + "-" + Itoa(b) + "/" + Itoa(step)) == if a <= b then Some(Item(a, b, step)) else None
  {
    Star(f, step);
    Alone(f, a, step);
    RangeReads(f, a, b, false);
    WithoutStep(f, Itoa(a) + "-" + Itoa(b));
    RangeReads(f, a, b, true);
    WithStep(f, Itoa(a) + "-" + Itoa(b), step);
  }

  lemma Star(f: Field, step: int)
    requires Named(f) && 1 <= step <= MAX_INT
    ensures ReadItem(f, "*") == Some(Item(f.min, f.max, 1))
    ensures ReadItem(f, "*/" + Itoa(step)) == Some(Item(f.min, f.max, step))
  {
    WithoutStep(f, "*");
    WithStep(f, "*", step);
    assert "*" + "/" + Itoa(step) == "*/" + Itoa(step);
  }

  lemma Alone(f: Field, a: int, step: int)
    requires Named(f) && 0 <= f.min <= a <= f.max <= MAX_INT && 1 <= step <= MAX_INT
    ensures ReadItem(f, Itoa(a)) == Some(Item(a, a, 1))
    ensures ReadItem(f, Itoa(a) + "/" + Itoa(step)) == Some(Item(a, f.max, step))
  {
    Figures(f, a);
    WithoutStep(f, Itoa(a));
    WithStep(f, Itoa(a), step);
  }

  ghost predicate Readable(f: Field, text: string)
    requires Named(f)
  {
    forall k :: 0 <= k < |Split(text, ',')| ==> ReadItem(f, Split(text, ',')[k]).Some?
  }

  ghost predicate Picks(f: Field, item: string, n: int)
    requires Named(f)
  {
    ReadItem(f, item).Some? && ReadItem(f, item).value.Selects(n)
  }

  // What a field's text says: n is among the values of one of its items.
  ghost predicate Says(f: Field, items: seq<string>, n: int)
    requires Named(f)
  {
    exists k :: 0 <= k < |items| && Picks(f, items[k], n)
  }

  // The inner loop of parseField.
  method AddItem(item: Item, out: set<int>) returns (r: set<int>)
    requires item.step > 0
    ensures forall n :: n in r <==> n in out || item.Selects(n)
  {
    r := out;
    var n := item.lo;
    Calendar.Quotient(0, item.step, 0);
    while n <= item.hi
      invariant item.lo <= n && item.OnStep(n)
      invariant forall m :: m in r <==> m in out || (item.Selects(m) && m < n)
      decreases item.hi - n
    {
      StepsApart(item, n);
      r := r + {n};
      n := n + item.step;
    }
  }

  lemma StepsApart(item: Item, n: int)
    requires item.step > 0 && item.OnStep(n)
    ensures item.OnStep(n + item.step)
    ensures forall m :: n < m < n + item.step ==> !item.OnStep(m)
  {
    NextStep(n - item.lo, item.step);
    forall m | n < m < n + item.step ensures !item.OnStep(m) {
      BetweenSteps(n - item.lo, m - item.lo, item.step);
    }
  }

  lemma BetweenSteps(a: int, b: int, step: int)
    requires step > 0 && a % step == 0 && a < b < a + step
    ensures b % step != 0
  {
    Calendar.Quotient(b, step, a / step);
  }

  lemma NextStep(a: int, step: int)
    requires step > 0 && a % step == 0
    ensures (a + step) % step == 0
  {
    assert step * (a / step + 1) == a + step;
    Calendar.Quotient(a + step, step, a / step + 1);
  }

  /** The values of a field: exactly those its text says, or None if it says something else. */
  method ParseField(f: Field, text: string) returns (r: Option<set<int>>)
    requires Named(f)
    ensures r.Some? <==> Readable(f, text)
    ensures r.Some? ==> forall n :: n in r.value <==> Says(f, Split(text, ','), n)
    ensures r.Some? ==> (exists n :: n in r.value) && forall n :: n in r.value ==> f.min <= n <= f.max
    ensures text == "*" ==> r.Some? && forall n :: f.min <= n <= f.max ==> n in r.value
  {
    var items := Split(text, ',');
    r := ParseItems(f, items);
    StarIsReadable(f, text);
    if r.Some? {
      SaysSomething(f, items);
      SaysWithin(f, items);
    }
  }

  method ParseItems(f: Field, items: seq<string>) returns (r: Option<set<int>>)
    requires Named(f)
    ensures r.Some? <==> forall k :: 0 <= k < |items| ==> ReadItem(f, items[k]).Some?
    ensures r.Some? ==> forall n :: n in r.value <==> Says(f, items, n)
  {
    var out: set<int> := {};
    for i := 0 to |items|
      invariant forall k :: 0 <= k < i ==> ReadItem(f, items[k]).Some?
      invariant forall n :: n in out <==> Says(f, items[..i], n)
    {
      var item := ReadItem(f, items[i]);
      if item.None? {
        return None;
      }
      out := AddOne(f, items, i, out);
    }
    assert items[..|items|] == items;
    return Some(out);
  }

  method AddOne(f: Field, items: seq<string>, i: nat, out: set<int>) returns (r: set<int>)
    requires Named(f) && i < |items| && ReadItem(f, items[i]).Some?
    requires forall n :: n in out <==> Says(f, items[..i], n)
    ensures forall n :: n in r <==> Says(f, items[..i + 1], n)
  {
    SaysMore(f, items, i);
    r := AddItem(ReadItem(f, items[i]).value, out);
  }

  lemma SaysWithin(f: Field, items: seq<string>)
    requires Named(f)
    ensures forall n :: Says(f, items, n) ==> f.min <= n <= f.max
  {
  }

  lemma SaysMore(f: Field, items: seq<string>, i: nat)
    requires Named(f) && i < |items| && ReadItem(f, items[i]).Some?
    ensures forall n :: Says(f, items[..i + 1], n) <==> Says(f, items[..i], n) || ReadItem(f, items[i]).value.Selects(n)
  {
    forall n
      ensures Says(f, items[..i + 1], n) <==> Says(f, items[..i], n) || ReadItem(f, items[i]).value.Selects(n)
    {
      SaysOneMore(f, items, i, n);
    }
  }

  ghost predicate Any(items: seq<string>, p: string -> bool) {
    exists k :: 0 <= k < |items| && p(items[k])
  }

  lemma AnyOneMore(items: seq<string>, i: nat, p: string -> bool)
    requires i < |items|
    ensures Any(items[..i + 1], p) <==> Any(items[..i], p) || p(items[i])
  {
    var some, more := items[..i], items[..i + 1];
    assert more[i] == items[i];
    assert forall k :: 0 <= k < i ==> more[k] == some[k];
  }

  lemma SaysAny(f: Field, items: seq<string>, n: int, p: string -> bool)
    requires Named(f) && forall item :: p(item) == Picks(f, item, n)
    ensures Says(f, items, n) <==> Any(items, p)
  {
  }

  lemma SaysOneMore(f: Field, items: seq<string>, i: nat, n: int)
    requires Named(f) && i < |items|
    ensures Says(f, items[..i + 1], n) <==> Says(f, items[..i], n) || Picks(f, items[i], n)
  {
    var p := (item: string) => Named(f) && Picks(f, item, n);
    SaysAny(f, items[..i], n, p);
    SaysAny(f, items[..i + 1], n, p);
    AnyOneMore(items, i, p);
  }

  lemma SaysSomething(f: Field, items: seq<string>)
    requires Named(f) && |items| > 0 && forall k :: 0 <= k < |items| ==> ReadItem(f, items[k]).Some?
    ensures exists n :: Says(f, items, n)
  {
    var item := ReadItem(f, items[0]).value;
    Calendar.Quotient(0, item.step, 0);
    assert item.Selects(item.lo);
    assert Says(f, items, item.lo);
  }

  lemma StarIsReadable(f: Field, text: string)
    requires Named(f)
    ensures text == "*" ==> Readable(f, text) && forall n :: Says(f, Split(text, ','), n) <==> f.min <= n <= f.max
  {
    if text == "*" {
      assert Split(text, ',') == ["*"];
      var item := ReadItem(f, "*").value;
      assert item == Item(f.min, f.max, 1);
      forall n ensures Says(f, ["*"], n) <==> f.min <= n <= f.max {
        assert item.OnStep(n);
        assert ["*"][0] == "*";
      }
    }
  }

  // Where the spaces, or the non-spaces, that s starts with end.
  function Run(s: string, space: bool): (i: nat)
    ensures i <= |s| && (s != "" && IsSpace(s[0]) == space ==> i > 0)
    ensures forall k :: 0 <= k < i ==> IsSpace(s[k]) == space
    ensures i < |s| ==> IsSpace(s[i]) != space
  {
    if s == "" || IsSpace(s[0]) != space then 0
    else
      assert forall k :: 0 < k < |s| ==> s[k] == s[1..][k - 1];
      1 + Run(s[1..], space)
  }

  predicate Word(s: string) {
    s != "" && forall k :: 0 <= k < |s| ==> !IsSpace(s[k])
  }

  // strings.Fields
  function Fields(s: string): (parts: seq<string>)
    ensures forall k :: 0 <= k < |parts| ==> Word(parts[k])
    decreases |s|
  {
    var rest := s[Run(s, true)..];
    if rest == "" then []
    else
      var n := Run(rest, false);
      assert Word(rest[..n]);
      [rest[..n]] + Fields(rest[n..])
  }

  lemma RunIs(s: string, space: bool, i: nat)
    requires i <= |s| && forall k :: 0 <= k < i ==> IsSpace(s[k]) == space
    requires i < |s| ==> IsSpace(s[i]) != space
    ensures Run(s, space) == i
  {
  }

  lemma FieldsOfWord(w: string)
    requires Word(w)
    ensures Fields(w) == [w]
  {
    RunIs(w, true, 0);
    RunIs(w, false, |w|);
    assert w[0..] == w && w[..|w|] == w && Fields(w[|w|..]) == [];
  }

  lemma SpaceFirst(sp: char, s: string)
    requires IsSpace(sp)
    ensures Fields([sp] + s) == Fields(s)
  {
    var n := Run(s, true);
    assert forall k :: 0 < k <= |s| ==> ([sp] + s)[k] == s[k - 1];
    RunIs([sp] + s, true, n + 1);
    assert ([sp] + s)[n + 1..] == s[n..];
  }

  lemma WordThen(word: string, rest: string)
    requires Word(word) && Gap(rest)
    ensures Fields(word + rest) == [word] + Fields(rest)
  {
    var s := word + rest;
    RunIs(s, true, 0);
    RunIs(s, false, |word|);
    assert s[0..] == s && s[..|word|] == word && s[|word|..] == rest;
  }

  predicate Gap(s: string) {
    s != "" ==> IsSpace(s[0])
  }

  lemma WordAhead(w: string, a: string, rest: string)
    requires Word(w) && Gap(a) && rest != "" && Gap(rest) && Fields(a + rest) == Fields(a) + Fields(rest)
    ensures Fields(w + (a + rest)) == Fields(w + a) + Fields(rest)
  {
    GapAhead(a, rest);
    WordThen(w, a);
    WordThen(w, a + rest);
    Prepend(w, Fields(a), Fields(rest));
  }

  lemma GapAhead(a: string, rest: string)
    requires Gap(a) && Gap(rest)
    ensures Gap(a + rest)
  {
    if a == "" { assert a + rest == rest; }
  }

  lemma Prepend(w: string, a: seq<string>, b: seq<string>)
    ensures [w] + (a + b) == [w] + a + b
  {
  }

  // The word or the space that s begins with.
  lemma Parted(s: string) returns (w: string, rest: string)
    requires s != ""
    ensures s == w + rest && |rest| < |s|
    ensures Leads(w, rest)
  {
    var n := if IsSpace(s[0]) then 1 else Run(s, false);
    w, rest := s[..n], s[n..];
  }

  lemma SpaceAhead(w: string, a: string, rest: string)
    requires |w| == 1 && IsSpace(w[0]) && Fields(a + rest) == Fields(a) + Fields(rest)
    ensures Fields(w + (a + rest)) == Fields(w + a) + Fields(rest)
  {
    assert w == [w[0]];
    SpaceFirst(w[0], a);
    SpaceFirst(w[0], a + rest);
  }

  // A word that nothing of what follows belongs to, or a space.
  predicate Leads(w: string, rest: string) {
    (|w| == 1 && IsSpace(w[0])) || (Word(w) && Gap(rest))
  }

  lemma JoinOneMore(w: string, a: string, rest: string)
    requires Leads(w, a) && rest != "" && Gap(rest) && Fields(a + rest) == Fields(a) + Fields(rest)
    ensures Fields(w + a + rest) == Fields(w + a) + Fields(rest)
  {
    assert w + a + rest == w + (a + rest);
    if |w| == 1 && IsSpace(w[0]) {
      SpaceAhead(w, a, rest);
    } else {
      WordAhead(w, a, rest);
    }
  }

  // What is true of nothing, and stays so with a word or a space ahead, is true of every text.
  lemma {:induction false} ByPieces(p: string -> bool, s: string)
    requires p("") && forall w, r :: Leads(w, r) && p(r) ==> p(w + r)
    ensures p(s)
    decreases |s|
  {
    if s != "" {
      var w, r := Parted(s);
      ByPieces(p, r);
      assert p(w + r);
    }
  }

  lemma FieldsJoin(a: string, rest: string)
    requires rest != "" && Gap(rest)
    ensures Fields(a + rest) == Fields(a) + Fields(rest)
  {
    var p := (s: string) => Fields(s + rest) == Fields(s) + Fields(rest);
    assert p("") by { assert "" + rest == rest; }
    forall w, r | Leads(w, r) && p(r) ensures p(w + r) {
      JoinOneMore(w, r, rest);
    }
    ByPieces(p, a);
  }

  /** A space parts what is before it from what is after it. */
  lemma FieldsConcat(a: string, sp: char, b: string)
    requires IsSpace(sp)
    ensures Fields(a + [sp] + b) == Fields(a) + Fields(b)
  {
    assert a + [sp] + b == a + ([sp] + b);
    FieldsJoin(a, [sp] + b);
    SpaceFirst(sp, b);
  }

  // Words with what stands before, between and after them.
  function Spaced(words: seq<string>, gaps: seq<string>): string
    requires |gaps| == |words| + 1
  {
    if words == [] then gaps[0] else gaps[0] + words[0] + Spaced(words[1..], gaps[1..])
  }

  lemma {:induction false} BlankFirst(gap: string, s: string)
    requires Blank(gap)
    ensures Fields(gap + s) == Fields(s)
  {
    if gap == "" {
      assert gap + s == s;
    } else {
      assert gap + s == [gap[0]] + (gap[1..] + s);
      BlankFirst(gap[1..], s);
      SpaceFirst(gap[0], gap[1..] + s);
    }
  }

  lemma SpacedStarts(words: seq<string>, gaps: seq<string>)
    requires |gaps| == |words| + 1 && Blank(gaps[0]) && (words != [] ==> gaps[0] != "")
    ensures Gap(Spaced(words, gaps))
  {
  }

  lemma OneWord(gap: string, word: string, rest: string)
    requires Blank(gap) && Word(word) && Gap(rest)
    ensures Fields(gap + word + rest) == [word] + Fields(rest)
  {
    WordThen(word, rest);
    assert gap + word + rest == gap + (word + rest);
    BlankFirst(gap, word + rest);
  }

  /** The fields of words with any space between them are the words, in order. */
  lemma {:induction false} FieldsAreTheWords(words: seq<string>, gaps: seq<string>)
    requires |gaps| == |words| + 1 && (forall k :: 0 <= k < |words| ==> Word(words[k]))
    requires (forall k :: 0 <= k < |gaps| ==> Blank(gaps[k])) && forall k :: 0 < k < |words| ==> gaps[k] != ""
    ensures Fields(Spaced(words, gaps)) == words
  {
    if words == [] {
      assert gaps[0] + "" == gaps[0];
      BlankFirst(gaps[0], "");
    } else {
      var rest := Spaced(words[1..], gaps[1..]);
      FieldsAreTheWords(words[1..], gaps[1..]);
      SpacedStarts(words[1..], gaps[1..]);
      OneWord(gaps[0], words[0], rest);
    }
  }

  ghost predicate SetSays(values: set<int>, f: Field, text: string)
    requires Named(f)
  {
    Readable(f, text) && forall n :: n in values <==> Says(f, Split(text, ','), n)
  }

  // What a schedule has to do with the texts of its five fields.
  ghost predicate Reads(s: Schedule, parts: seq<string>)
    requires |parts| == 5
  {
    && SetSays(s.minutes, MINUTE, parts[0])
    && SetSays(s.hours, HOUR, parts[1])
    && SetSays(s.days, DAY, parts[2])
    && SetSays(s.months, MONTH, parts[3])
    && Readable(WEEKDAY, parts[4])
    && (forall n :: n in s.weekdays
                    <==> Says(WEEKDAY, Split(parts[4], ','), n) || (n == 0 && Says(WEEKDAY, Split(parts[4], ','), 7)))
    && s.anyDay == (parts[2] == "*") && s.anyWeekday == (parts[4] == "*")
  }

  ghost predicate AllReadable(parts: seq<string>) {
    && |parts| == 5
    && Readable(MINUTE, parts[0]) && Readable(HOUR, parts[1]) && Readable(DAY, parts[2]) && Readable(MONTH, parts[3])
    && Readable(WEEKDAY, parts[4])
  }

  // 7 is another name for sunday.
  function Sundays(weekdays: set<int>): (r: set<int>)
    ensures forall n :: n in r <==> n in weekdays || (n == 0 && 7 in weekdays)
  {
    if 7 in weekdays then weekdays + {0} else weekdays
  }

  method ParseParts(parts: seq<string>) returns (r: Option<Schedule>)
    requires |parts| == 5
    ensures r.Some? <==> AllReadable(parts)
    ensures r.Some? ==> Reads(r.value, parts) && r.value.Parsed()
  {
    r := None;
    var minutes := ParseField(MINUTE, parts[0]);
    if minutes.None? { return; }
    var hours := ParseField(HOUR, parts[1]);
    if hours.None? { return; }
    var days := ParseField(DAY, parts[2]);
    if days.None? { return; }
    var months := ParseField(MONTH, parts[3]);
    if months.None? { return; }
    var weekdays := ParseField(WEEKDAY, parts[4]);
    if weekdays.None? { return; }
    r := Some(Schedule(minutes.value, hours.value, days.value, months.value, Sundays(weekdays.value),
                       parts[2] == "*", parts[4] == "*"));
  }

  /** A five-field expression: every schedule it reads is one the search is right about. */
  method Parse(expr: string) returns (r: Option<Schedule>)
    ensures r.Some? <==> AllReadable(Fields(expr))
    ensures r.Some? ==> Reads(r.value, Fields(expr)) && r.value.Parsed()
  {
    var parts := Fields(expr);
    if |parts| != 5 {
      return None;
    }
    r := ParseParts(parts);
  }

  /** Five words, with any space around them, are minute, hour, day, month and weekday, in this order. */
  method ParseWords(words: seq<string>, gaps: seq<string>) returns (r: Option<Schedule>)
    requires |words| == 5 && |gaps| == 6 && (forall k :: 0 <= k < 5 ==> Word(words[k]))
    requires (forall k :: 0 <= k < 6 ==> Blank(gaps[k])) && forall k :: 0 < k < 5 ==> gaps[k] != ""
    ensures r.Some? <==> AllReadable(words)
    ensures r.Some? ==> Reads(r.value, words) && r.value.Parsed()
  {
    FieldsAreTheWords(words, gaps);
    r := Parse(Spaced(words, gaps));
  }

  lemma OnlyValue(f: Field, a: int, values: set<int>)
    requires Named(f) && 0 <= f.min <= a <= f.max <= MAX_INT && SetSays(values, f, Itoa(a))
    ensures values == {a}
  {
    ItoaHasNo(a, ',');
    assert Split(Itoa(a), ',') == [Itoa(a)];
    Alone(f, a, 1);
    var item := ReadItem(f, Itoa(a)).value;
    forall n ensures n in values <==> n == a {
      assert item.Selects(n) <==> n == a;
      assert [Itoa(a)][0] == Itoa(a);
      assert Says(f, [Itoa(a)], n) <==> Picks(f, Itoa(a), n);
    }
  }

  lemma FiguresReadable(f: Field, a: int)
    requires Named(f) && 0 <= f.min <= a <= f.max <= MAX_INT
    ensures Readable(f, Itoa(a))
  {
    ItoaHasNo(a, ',');
    assert Split(Itoa(a), ',') == [Itoa(a)];
    Alone(f, a, 1);
  }

  // The words of a schedule for one time of one day of the year.
  function YearlyWords(minute: nat, hour: nat, day: nat, month: nat): seq<string> {
    [Itoa(minute), Itoa(hour), Itoa(day), Itoa(month), "*"]
  }

  lemma YearlyReadable(minute: nat, hour: nat, day: nat, month: nat)
    requires minute <= 59 && hour <= 23 && 1 <= day <= 31 && 1 <= month <= 12
    ensures AllReadable(YearlyWords(minute, hour, day, month))
  {
    FiguresReadable(MINUTE, minute);
    FiguresReadable(HOUR, hour);
    FiguresReadable(DAY, day);
    FiguresReadable(MONTH, month);
    StarIsReadable(WEEKDAY, "*");
  }

  lemma ItoaIsAWord(n: nat)
    ensures Word(Itoa(n))
  {
    assert forall k :: 0 <= k < |Itoa(n)| ==> IsDigit(Itoa(n)[k]);
  }

  lemma YearlyAreWords(minute: nat, hour: nat, day: nat, month: nat)
    ensures forall k :: 0 <= k < 5 ==> Word(YearlyWords(minute, hour, day, month)[k])
  {
    ItoaIsAWord(minute);
    ItoaIsAWord(hour);
    ItoaIsAWord(day);
    ItoaIsAWord(month);
    assert Word("*");
  }

  lemma YearlySets(s: Schedule, minute: nat, hour: nat, day: nat, month: nat)
    requires minute <= 59 && hour <= 23 && 1 <= day <= 31 && 1 <= month <= 12
    requires Reads(s, YearlyWords(minute, hour, day, month))
    ensures s.minutes == {minute} && s.hours == {hour} && s.days == {day} && s.months == {month}
    ensures !s.anyDay && s.anyWeekday
  {
    OnlyValue(MINUTE, minute, s.minutes);
    OnlyValue(HOUR, hour, s.hours);
    OnlyValue(DAY, day, s.days);
    OnlyValue(MONTH, month, s.months);
    Figures(DAY, day);
  }

  // The schedule matches at one time of one day of the year.
  ghost predicate IsYearly(s: Schedule, minute: int, hour: int, day: int, month: int) {
    forall date: Calendar.Date, h, m | Calendar.IsDate(date) && 0 <= h < 24 && 0 <= m < 60 ::
      s.Matches(Clock(date, h, m)) <==> m == minute && h == hour && date.day == day && date.month == month
  }

  /** From text to dates: `minute hour day month *` is exactly that time of that day, every year that has it. */
  method Yearly(minute: nat, hour: nat, day: nat, month: nat, gaps: seq<string>) returns (r: Option<Schedule>)
    requires minute <= 59 && hour <= 23 && 1 <= day <= 31 && 1 <= month <= 12 && |gaps| == 6
    requires (forall k :: 0 <= k < 6 ==> Blank(gaps[k])) && forall k :: 0 < k < 5 ==> gaps[k] != ""
    ensures r.Some?
    ensures IsYearly(r.value, minute, hour, day, month)
  {
    var words := [Itoa(minute), Itoa(hour), Itoa(day), Itoa(month), "*"];
    YearlyReadable(minute, hour, day, month);
    YearlyAreWords(minute, hour, day, month);
    r := ParseWords(words, gaps);
    YearlySets(r.value, minute, hour, day, month);
    forall date: Calendar.Date, h, m | Calendar.IsDate(date) && 0 <= h < 24 && 0 <= m < 60
      ensures r.value.Matches(Clock(date, h, m)) <==> m == minute && h == hour && date.day == day && date.month == month
    {
      MatchesOn(r.value, date, h, m);
    }
  }

  // Between the noon before and 03:00 on the first of May, no other minute is that of a first of May.
  lemma OnlyFirstOfMay(t: Minute, date: Calendar.Date)
    requires Calendar.IsDate(date) && date.day == 1 && date.month == 5 && t == Clock(date, 3, 0)
    requires Clock(Calendar.Date(2026, 4, 30), 12, 0) < t <= Clock(Calendar.Date(2026, 5, 1), 3, 0)
    ensures t == Clock(Calendar.Date(2026, 5, 1), 3, 0)
  {
    Calendar.FromMarch(2026, 4, 30);
    Calendar.FromMarch(2026, 5, 1);
    if date.year < 2026 {
      LaterMay(date.year, 2026);
    } else if date.year > 2026 {
      LaterMay(2026, date.year);
    }
  }

  lemma LaterMay(y: int, z: int)
    requires y < z
    ensures Calendar.DayNumber(y, 5, 1) + 300 <= Calendar.DayNumber(z, 5, 1)
  {
    Calendar.YearsGrow(y, z);
    Calendar.MonthsFromMarch(y, 5);
    Calendar.MonthsFromMarch(z, 5);
  }

  // The least match after a moment, of what the search has found.
  lemma MayIsNext(s: Schedule, noon: Minute, may: Minute, next: Minute)
    requires IsYearly(s, 0, 3, 1, 5)
    requires noon == Clock(Calendar.Date(2026, 4, 30), 12, 0) && may == Clock(Calendar.Date(2026, 5, 1), 3, 0)
    requires noon < next <= may && s.Matches(next)
    ensures next == may
  {
    var date, h, m := ClockOf(next);
    OnlyFirstOfMay(next, date);
  }

  lemma NoonIsBefore()
    ensures Clock(Calendar.Date(2026, 4, 30), 12, 0) < Clock(Calendar.Date(2026, 5, 1), 3, 0)
  {
    Calendar.FromMarch(2026, 4, 30);
    Calendar.FromMarch(2026, 5, 1);
  }

  method NextUpTo(s: Schedule, from: Minute, to: Minute) returns (next: Minute)
    requires from < to && s.Matches(to)
    ensures from < next <= to && s.Matches(next)
  {
    var at := Next(s, from * NANOS_PER_MINUTE);
    assert Fires(s);
    Scaled(from, to);
    Scaled(from, at.value);
    next := at.value;
  }

  // A yearly schedule matches on its day.
  lemma MatchesItsDay(s: Schedule, minute: int, hour: int, date: Calendar.Date)
    requires IsYearly(s, minute, hour, date.day, date.month) && Calendar.IsDate(date)
    requires 0 <= hour < 24 && 0 <= minute < 60
    ensures s.Matches(Clock(date, hour, minute))
  {
  }

  /** At noon of 30 April 2026, `0 3 1 5 *` fires next on 1 May, a Friday, at 03:00. */
  method FirstOfMay() returns (next: Minute)
    ensures next == Clock(Calendar.Date(2026, 5, 1), 3, 0)
  {
    var r := Yearly(0, 3, 1, 5, ["", " ", " ", " ", " ", ""]);
    var noon, may := Clock(Calendar.Date(2026, 4, 30), 12, 0), Clock(Calendar.Date(2026, 5, 1), 3, 0);
    NoonIsBefore();
    MatchesItsDay(r.value, 0, 3, Calendar.Date(2026, 5, 1));
    next := NextUpTo(r.value, noon, may);
    MayIsNext(r.value, noon, may, next);
  }
}
