/**
 * The query language of `GET /tasks`: the `completed` filter, the
 * `limit`/`skip` pair, and `sortBy=<field>_<direction>`; and the order and
 * page the store applies to the caller's tasks.
 */
module TaskQuery {
  import opened Common
  import opened Numbers
  import opened TaskModel

  /** The query string; a parameter that is not there is `None`. */
  datatype Query = Query(completed: Option<string>, limit: Option<string>, skip: Option<string>, sortBy: Option<string>)

  datatype SortSpec = SortSpec(field: string, descending: bool)

  /** What the handler passes to the store: the match on `completed`, paging and sort. */
  datatype Options = Options(completed: Option<bool>, limit: nat, skip: nat, sort: Option<SortSpec>)

  const DefaultLimit: nat := 10
  const DefaultSkip: nat := 0

  /** A query value is truthy in JavaScript when it is there and not empty. */
  predicate Given(v: Option<string>) {
    v.Some? && v.value != ""
  }

  /** `parseInt` reads a count from `v`: a number, and not a negative one. */
  predicate IsCount(v: string) {
    ParseInt(v).Some? && ParseInt(v).value >= 0
  }

  /** The paging values, when the handler reads them, are counts (`NaN` and negatives are not modelled). */
  predicate Parsable(q: Query) {
    Given(q.limit) && Given(q.skip) ==> IsCount(q.limit.value) && IsCount(q.skip.value)
  }

  // --------------------------------------------------------------- split

  /** Splitting at every underscore. */
  function Split(s: string): (parts: seq<string>)
    ensures |parts| >= 1
    ensures forall k :: 0 <= k < |parts| ==> '_' !in parts[k]
    ensures |parts[0]| <= |s| && s[..|parts[0]|] == parts[0]
    ensures |parts[0]| == |s| || s[|parts[0]|] == '_'
  {
    if s == [] then [""]
    else
      var rest := Split(s[1..]);
      if s[0] == '_' then [""] + rest
      else [[s[0]] + rest[0]] + rest[1..]
  }

  /** Joining the parts with an underscore between each two. */
  function Join(parts: seq<string>): string
    requires |parts| >= 1
  {
    if |parts| == 1 then parts[0] else parts[0] + "_" + Join(parts[1..])
  }

  /** Splitting and joining again gives the string back. */
  lemma {:induction false} JoinSplit(s: string)
    ensures Join(Split(s)) == s
    decreases |s|
  {
    if s != [] {
      var rest := Split(s[1..]);
      JoinSplit(s[1..]);
      if s[0] == '_' {
        assert Split(s)[1..] == rest;
      } else {
        var parts := Split(s);
        assert parts[1..] == rest[1..];
        if |rest| == 1 {
          assert s == [s[0]] + s[1..];
        } else {
          assert Join(rest) == rest[0] + "_" + Join(rest[1..]);
          assert s == [s[0]] + s[1..];
        }
      }
    }
  }

  /** Splitting `a + rest`, where `a` has no separator, glues `a` to the first part of `rest`. */
  lemma {:induction false} SplitPrefix(a: string, rest: string)
    requires '_' !in a
    ensures Split(a + rest) == [a + Split(rest)[0]] + Split(rest)[1..]
    decreases |a|
  {
    if a == [] {
      assert a + rest == rest;
      assert a + Split(rest)[0] == Split(rest)[0];
      assert Split(rest) == [Split(rest)[0]] + Split(rest)[1..];
    } else {
      assert (a + rest)[1..] == a[1..] + rest;
      SplitPrefix(a[1..], rest);
      assert [a[0]] + (a[1..] + Split(rest)[0]) == a + Split(rest)[0];
    }
  }

  /** Joining separator-free parts and splitting again gives the parts back. */
  lemma {:induction false} SplitJoin(parts: seq<string>)
    requires |parts| >= 1
    requires forall k :: 0 <= k < |parts| ==> '_' !in parts[k]
    ensures Split(Join(parts)) == parts
    decreases |parts|
  {
    SplitPrefix(parts[0], []);
    assert parts[0] + [] == parts[0];
    if |parts| > 1 {
      SplitJoin(parts[1..]);
      var tail := Join(parts[1..]);
      assert parts[0] + "_" + tail == parts[0] + ("_" + tail);
      SplitPrefix(parts[0], "_" + tail);
      assert ("_" + tail)[1..] == tail;
      assert Split("_" + tail) == [""] + Split(tail);
      assert parts[0] + "" == parts[0];
      assert parts == [parts[0]] + parts[1..];
    }
  }

  // ---------------------------------------------------------- query parts

  /** The `completed` match: none for a missing or empty value, otherwise whether the value is exactly "true". */
  function CompletedFilter(q: Query): (r: Option<bool>)
    ensures r.None? <==> !Given(q.completed)
    ensures r.Some? ==> (r.value <==> q.completed.value == "true")
  {
    if Given(q.completed) then Some(q.completed.value == "true") else None
  }

  /** The sort a `sortBy` value asks for: the text before the first `_` names the field, and the order is descending only when the text between the first and second `_` is "desc". */
  function SortSpecOf(sortBy: string): (r: SortSpec)
    ensures '_' !in r.field
    ensures |r.field| <= |sortBy| && sortBy[..|r.field|] == r.field
    ensures |r.field| < |sortBy| ==> sortBy[|r.field|] == '_'
  {
    var parts := Split(sortBy);
    SortSpec(parts[0], |parts| >= 2 && parts[1] == "desc")
  }

  /**
   * The store accepts `field` as a sort key: it is a field path whose
   * dot-separated names are all non-empty and none starts with `$`, or it is
   * `$natural`, the store's own natural-order key.
   */
  predicate SortPathOk(field: string) {
    || field == "$natural"
    || (&& field != []
        && field[0] != '.' && field[0] != '$' && field[|field| - 1] != '.'
        && forall k :: 0 <= k < |field| - 1 && field[k] == '.' ==> field[k + 1] != '.' && field[k + 1] != '$')
  }

  /** A maximal separator-free prefix `p` of `d` is "desc" exactly when `d` is "desc" or starts with "desc_". */
  lemma PrefixIsDesc(d: string, p: string)
    requires '_' !in p && |p| <= |d| && d[..|p|] == p
    requires |p| == |d| || d[|p|] == '_'
    ensures p == "desc" <==> d == "desc" || (|d| >= 5 && d[..5] == "desc_")
  {
    if p == "desc" {
      if |d| > 4 {
        assert d[..5] == d[..4] + [d[4]];
      } else {
        assert d == d[..4];
      }
    }
    if d == "desc" || (|d| >= 5 && d[..5] == "desc_") {
      assert d[0] == 'd' && d[1] == 'e' && d[2] == 's' && d[3] == 'c';
      assert |d| == 4 || d[4] == '_';
      assert |p| == 4;
      assert p == d[..4];
    }
  }

  /** The first part of a split is "desc" exactly when the string is "desc" or starts with "desc_". */
  lemma FirstPartIsDesc(d: string)
    ensures Split(d)[0] == "desc" <==> d == "desc" || (|d| >= 5 && d[..5] == "desc_")
  {
    PrefixIsDesc(d, Split(d)[0]);
  }

  /** What `sortBy` selects, read straight off the string: the field before the first `_`, and "desc" after it. */
  lemma SortSpecOfFieldAndDirection(field: string, direction: string)
    requires '_' !in field
    ensures SortSpecOf(field) == SortSpec(field, false)
    ensures SortSpecOf(field + "_" + direction)
            == SortSpec(field, direction == "desc" || (|direction| >= 5 && direction[..5] == "desc_"))
  {
    SplitPrefix(field, []);
    assert field + [] == field;
    assert Split([]) == [""];
    assert field + "" == field;
    assert field + "_" + direction == field + ("_" + direction);
    SplitPrefix(field, "_" + direction);
    assert ("_" + direction)[1..] == direction;
    assert Split("_" + direction) == [""] + Split(direction);
    FirstPartIsDesc(direction);
  }

  /** The whole query, as the handler turns it into store options. */
  function ParseQuery(q: Query): (o: Options)
    requires Parsable(q)
    ensures o.completed == CompletedFilter(q)
    ensures !(Given(q.limit) && Given(q.skip)) ==> o.limit == DefaultLimit && o.skip == DefaultSkip
    ensures Given(q.limit) && Given(q.skip) ==> Some(o.limit as int) == ParseInt(q.limit.value) && Some(o.skip as int) == ParseInt(q.skip.value)
    ensures o.sort.None? <==> !Given(q.sortBy)
    ensures o.sort.Some? ==> o.sort.value == SortSpecOf(q.sortBy.value)
  {
    var limit, skip :=
      if Given(q.limit) && Given(q.skip) then ParseInt(q.limit.value).value else DefaultLimit,
      if Given(q.limit) && Given(q.skip) then ParseInt(q.skip.value).value else DefaultSkip;
    var sort := if Given(q.sortBy) then Some(SortSpecOf(q.sortBy.value)) else None;
    Options(CompletedFilter(q), limit, skip, sort)
  }

  /** Supplying only one of limit and skip, whatever its value, is the same as supplying neither. */
  lemma OneOfLimitSkipIsIgnored(q: Query, v: Option<string>)
    requires Parsable(q)
    ensures !Given(q.skip) ==>
      && Parsable(q.(limit := v))
      && ParseQuery(q.(limit := v)) == ParseQuery(q.(limit := None))
      && ParseQuery(q.(limit := v)).limit == DefaultLimit && ParseQuery(q.(limit := v)).skip == DefaultSkip
    ensures !Given(q.limit) ==>
      && Parsable(q.(skip := v))
      && ParseQuery(q.(skip := v)) == ParseQuery(q.(skip := None))
      && ParseQuery(q.(skip := v)).limit == DefaultLimit && ParseQuery(q.(skip := v)).skip == DefaultSkip
  {
  }

  // ---------------------------------------------------------------- order

  /** A sort key as the store compares it; different kinds order by their BSON type rank. */
  datatype SortValue = KeyMissing | KeyString(str: string) | KeyObjectId(oid: nat) | KeyBool(flag: bool) | KeyDate(time: nat)

  function Rank(v: SortValue): nat {
    match v
    case KeyMissing => 1
    case KeyString(_) => 3
    case KeyObjectId(_) => 7
    case KeyBool(_) => 8
    case KeyDate(_) => 9
  }

  /** A plain name, without dots and not starting with `$`, is a sort key the store accepts. */
  lemma PlainNameIsSortPath(field: string)
    requires field != [] && field[0] != '$' && '.' !in field
    ensures SortPathOk(field)
  {
  }

  /**
   * The value of a task's field; a field the task does not have is missing.
   * The id is not listed: its name holds an underscore, and a sort field ends
   * before the first one.
   */
  function FieldValue(t: Task, field: string): SortValue {
    if field == "description" then KeyString(t.description)
    else if field == "completed" then KeyBool(t.completed)
    else if field == "owner" then KeyObjectId(t.owner)
    else if field == "createdAt" then KeyDate(t.createdAt)
    else if field == "updatedAt" then KeyDate(t.updatedAt)
    else KeyMissing
  }

  /** Binary (code point) order on strings. */
  predicate LexLe(a: string, b: string) {
    a == [] || (b != [] && (a[0] < b[0] || (a[0] == b[0] && LexLe(a[1..], b[1..]))))
  }

  lemma {:induction false} LexLeTotal(a: string, b: string)
    ensures LexLe(a, b) || LexLe(b, a)
    decreases |a|
  {
    if a != [] && b != [] && a[0] == b[0] {
      LexLeTotal(a[1..], b[1..]);
    }
  }

  lemma {:induction false} LexLeTrans(a: string, b: string, c: string)
    requires LexLe(a, b) && LexLe(b, c)
    ensures LexLe(a, c)
    decreases |a|
  {
    if a != [] && b != [] && c != [] && a[0] == b[0] && b[0] == c[0] {
      LexLeTrans(a[1..], b[1..], c[1..]);
    }
  }

  predicate ValueLe(a: SortValue, b: SortValue) {
    if Rank(a) != Rank(b) then Rank(a) < Rank(b)
    else if a.KeyString? && b.KeyString? then LexLe(a.str, b.str)
    else if a.KeyObjectId? && b.KeyObjectId? then a.oid <= b.oid
    else if a.KeyBool? && b.KeyBool? then !a.flag || b.flag
    else if a.KeyDate? && b.KeyDate? then a.time <= b.time
    else true
  }

  /** `x` may come before `y` in the order `spec` asks for. */
  predicate InOrder(x: Task, y: Task, spec: SortSpec) {
    if spec.descending then ValueLe(FieldValue(y, spec.field), FieldValue(x, spec.field))
    else ValueLe(FieldValue(x, spec.field), FieldValue(y, spec.field))
  }

  lemma InOrderTotal(x: Task, y: Task, spec: SortSpec)
    ensures InOrder(x, y, spec) || InOrder(y, x, spec)
  {
    var a, b := FieldValue(x, spec.field), FieldValue(y, spec.field);
    if a.KeyString? && b.KeyString? {
      LexLeTotal(a.str, b.str);
    }
  }

  lemma InOrderTrans(x: Task, y: Task, z: Task, spec: SortSpec)
    requires InOrder(x, y, spec) && InOrder(y, z, spec)
    ensures InOrder(x, z, spec)
  {
    var a, b, c := FieldValue(x, spec.field), FieldValue(y, spec.field), FieldValue(z, spec.field);
    if a.KeyString? && b.KeyString? && c.KeyString? {
      if spec.descending {
        LexLeTrans(c.str, b.str, a.str);
      } else {
        LexLeTrans(a.str, b.str, c.str);
      }
    }
  }

  ghost predicate Sorted(s: seq<Task>, spec: SortSpec) {
    forall i, j :: 0 <= i < j < |s| ==> InOrder(s[i], s[j], spec)
  }

  /** Puts `x` before the first element it may precede. */
  function Insert(x: Task, s: seq<Task>, spec: SortSpec): seq<Task> {
    if s == [] then [x]
    else if InOrder(x, s[0], spec) then [x] + s
    else [s[0]] + Insert(x, s[1..], spec)
  }

  /** An element that may precede every element of a sorted list may head it. */
  lemma SortedCons(a: Task, t: seq<Task>, spec: SortSpec)
    requires Sorted(t, spec)
    requires forall k :: 0 <= k < |t| ==> InOrder(a, t[k], spec)
    ensures Sorted([a] + t, spec)
  {
    var r := [a] + t;
    forall i, j | 0 <= i < j < |r|
      ensures InOrder(r[i], r[j], spec)
    {
      assert r[j] == t[j - 1];
      if i > 0 {
        assert r[i] == t[i - 1];
      }
    }
  }

  lemma {:induction false} InsertPermutes(x: Task, s: seq<Task>, spec: SortSpec)
    ensures multiset(Insert(x, s, spec)) == multiset(s) + multiset{x}
    decreases |s|
  {
    if s != [] && !InOrder(x, s[0], spec) {
      InsertPermutes(x, s[1..], spec);
      assert s == [s[0]] + s[1..];
    }
  }

  /** A lower bound of `x` and of every element of `s` bounds every element of the insertion. */
  lemma InsertBelow(y: Task, x: Task, s: seq<Task>, spec: SortSpec)
    requires InOrder(y, x, spec)
    requires forall k :: 0 <= k < |s| ==> InOrder(y, s[k], spec)
    ensures forall k :: 0 <= k < |Insert(x, s, spec)| ==> InOrder(y, Insert(x, s, spec)[k], spec)
  {
    var t := Insert(x, s, spec);
    InsertPermutes(x, s, spec);
    forall k | 0 <= k < |t|
      ensures InOrder(y, t[k], spec)
    {
      assert t[k] in multiset(t);
      if t[k] != x {
        assert t[k] in multiset(s);
        var m :| 0 <= m < |s| && s[m] == t[k];
      }
    }
  }

  lemma {:induction false} InsertKeepsOrder(x: Task, s: seq<Task>, spec: SortSpec)
    requires Sorted(s, spec)
    ensures Sorted(Insert(x, s, spec), spec)
    decreases |s|
  {
    if s == [] {
    } else if InOrder(x, s[0], spec) {
      forall k | 0 <= k < |s|
        ensures InOrder(x, s[k], spec)
      {
        if k > 0 {
          InOrderTrans(x, s[0], s[k], spec);
        }
      }
      SortedCons(x, s, spec);
    } else {
      var tail := s[1..];
      assert forall i, j :: 0 <= i < j < |tail| ==> tail[i] == s[i + 1] && tail[j] == s[j + 1];
      InsertKeepsOrder(x, tail, spec);
      InOrderTotal(x, s[0], spec);
      assert forall k :: 0 <= k < |tail| ==> tail[k] == s[k + 1];
      InsertBelow(s[0], x, tail, spec);
      SortedCons(s[0], Insert(x, tail, spec), spec);
    }
  }

  /** The order the store hands back for a sort: a sorted permutation (stable here; the store promises no tie order). */
  function SortTasks(s: seq<Task>, spec: SortSpec): (r: seq<Task>)
    ensures Sorted(r, spec)
    ensures multiset(r) == multiset(s)
  {
    if s == [] then []
    else
      var rest := SortTasks(s[1..], spec);
      InsertKeepsOrder(s[0], rest, spec);
      InsertPermutes(s[0], rest, spec);
      assert s == [s[0]] + s[1..];
      Insert(s[0], rest, spec)
  }

  /** `skip` elements dropped, then at most `limit` kept. */
  function Window<T>(s: seq<T>, skip: nat, limit: nat): (r: seq<T>)
    ensures |r| <= limit
    ensures |r| == if skip >= |s| then 0 else if |s| - skip < limit then |s| - skip else limit
    ensures forall k :: 0 <= k < |r| ==> skip + k < |s| && r[k] == s[skip + k]
  {
    var rest := if skip >= |s| then [] else s[skip..];
    if |rest| <= limit then rest else rest[..limit]
  }
}
