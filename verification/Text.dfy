/** Go's strings and sort packages, as far as they are used. */
module Text {

  predicate HasPrefix(s: string, prefix: string) {
    |s| >= |prefix| && s[..|prefix|] == prefix
  }

  predicate HasSuffix(s: string, suffix: string) {
    |s| >= |suffix| && s[|s| - |suffix|..] == suffix
  }

  /** The length of a text in UTF-8. */
  function ByteLength(s: string): nat {
    if s == [] then 0
    else
      var c := s[0];
      (if c < '\U{80}' then 1 else if c < '\U{800}' then 2 else if c < '\U{10000}' then 3 else 4) + ByteLength(s[1..])
  }

  /** a < b, comparing character by character. */
  predicate Less(a: string, b: string)
    decreases |a|
  {
    if b == [] then false
    else if a == [] then true
    else a[0] < b[0] || (a[0] == b[0] && Less(a[1..], b[1..]))
  }

  lemma {:induction false} LessTrichotomy(a: string, b: string)
    ensures Less(a, b) || a == b || Less(b, a)
    ensures !(Less(a, b) && (a == b || Less(b, a)))
    decreases |a|
  {
    if a != [] && b != [] {
      LessTrichotomy(a[1..], b[1..]);
      assert a == [a[0]] + a[1..] && b == [b[0]] + b[1..];
    }
  }

  lemma {:induction false} LessTransitive(a: string, b: string, c: string)
    requires Less(a, b) && Less(b, c)
    ensures Less(a, c)
    decreases |a|
  {
    if a != [] && a[0] == b[0] && b[0] == c[0] {
      LessTransitive(a[1..], b[1..], c[1..]);
    }
  }

  ghost predicate Ascending(names: seq<string>) {
    forall i, j :: 0 <= i < j < |names| ==> !Less(names[j], names[i])
  }

  ghost predicate StrictlyAscending(names: seq<string>) {
    forall i, j :: 0 <= i < j < |names| ==> Less(names[i], names[j])
  }

  function Insert(name: string, names: seq<string>): (r: seq<string>)
    ensures multiset(r) == multiset{name} + multiset(names)
    ensures |r| == |names| + 1
  {
    if names == [] then [name]
    else if Less(names[0], name) then
      assert names == [names[0]] + names[1..];
      [names[0]] + Insert(name, names[1..])
    else
      [name] + names
  }

  lemma {:induction false} InsertAscends(name: string, names: seq<string>)
    requires Ascending(names)
    ensures Ascending(Insert(name, names))
  {
    if names != [] {
      var r := Insert(name, names);
      if Less(names[0], name) {
        InsertAscends(name, names[1..]);
        var rest := Insert(name, names[1..]);
        forall j | 0 <= j < |rest| ensures !Less(rest[j], names[0]) {
          assert rest[j] in multiset(rest);
          if rest[j] == name {
            LessTrichotomy(names[0], name);
          } else {
            var k :| 0 <= k < |names[1..]| && names[1..][k] == rest[j];
            assert names[k + 1] == rest[j];
          }
        }
      } else {
        forall j | 0 <= j < |names| ensures !Less(names[j], name) {
          LessTrichotomy(names[j], names[0]);
          LessTrichotomy(names[0], name);
          if Less(names[j], name) && j > 0 {
            assert !Less(names[j], names[0]);
            if Less(names[0], names[j]) {
              LessTransitive(names[0], names[j], name);
            }
          }
        }
      }
    }
  }

  /** sort.Strings. */
  function Sorted(names: seq<string>): (r: seq<string>)
    ensures multiset(r) == multiset(names)
    ensures |r| == |names|
  {
    if names == [] then []
    else
      assert names == [names[0]] + names[1..];
      Insert(names[0], Sorted(names[1..]))
  }

  lemma {:induction false} SortedAscends(names: seq<string>)
    ensures Ascending(Sorted(names))
  {
    if names != [] {
      SortedAscends(names[1..]);
      InsertAscends(names[0], Sorted(names[1..]));
    }
  }

  predicate Distinct(names: seq<string>) {
    forall i, j :: 0 <= i < j < |names| ==> names[i] != names[j]
  }

  lemma DistinctHead(names: seq<string>)
    requires names != []
    ensures Distinct(names) <==> names[0] !in names[1..] && Distinct(names[1..])
  {
    var rest := names[1..];
    assert forall i :: 0 <= i < |rest| ==> rest[i] == names[i + 1];
    if names[0] !in rest && Distinct(rest) {
      forall i, j | 0 <= i < j < |names| ensures names[i] != names[j] {
        assert names[j] == rest[j - 1] && (i > 0 ==> names[i] == rest[i - 1]);
      }
    }
  }

  lemma {:induction false} DistinctIffSimple(names: seq<string>)
    ensures Distinct(names) <==> forall x :: multiset(names)[x] <= 1
  {
    if names != [] {
      var rest := names[1..];
      assert names == [names[0]] + rest;
      DistinctHead(names);
      DistinctIffSimple(rest);
      assert forall x :: multiset(names)[x] == multiset(rest)[x] + if x == names[0] then 1 else 0;
      assert names[0] in rest <==> multiset(rest)[names[0]] > 0;
    }
  }

  /** Sorting distinct names gives the same names in strictly ascending order. */
  lemma {:induction false} SortedStrictly(names: seq<string>)
    requires Distinct(names)
    ensures StrictlyAscending(Sorted(names))
    ensures forall x :: x in Sorted(names) <==> x in names
  {
    SortedAscends(names);
    DistinctIffSimple(names);
    DistinctIffSimple(Sorted(names));
    var r := Sorted(names);
    forall i, j | 0 <= i < j < |r| ensures Less(r[i], r[j]) {
      LessTrichotomy(r[i], r[j]);
    }
    forall x ensures x in r <==> x in names {
      assert x in r <==> x in multiset(r);
      assert x in names <==> x in multiset(names);
    }
  }
}
