/** The body of a scrape (Prometheus text exposition format 0.0.4): one line per metric, in the order
    std::map iterates, and reading such a body back. */
module MetricBody {
  import opened CStrings

  // ---- the order in which std::map iterates ----

  predicate AtMost(a: string, b: string) {
    a == "" || (b != "" && (a[0] < b[0] || (a[0] == b[0] && AtMost(a[1..], b[1..]))))
  }

  lemma {:induction false} AtMostTotal(a: string, b: string)
    ensures AtMost(a, b) || AtMost(b, a)
    ensures AtMost(a, b) && AtMost(b, a) ==> a == b
  {
    if a != "" && b != "" {
      AtMostTotal(a[1..], b[1..]);
      if a[0] == b[0] && a[1..] == b[1..] { assert a == [a[0]] + a[1..] == b; }
    }
  }

  lemma {:induction false} AtMostTransitive(a: string, b: string, c: string)
    requires AtMost(a, b) && AtMost(b, c)
    ensures AtMost(a, c)
  {
    if a != "" && a[0] == b[0] == c[0] { AtMostTransitive(a[1..], b[1..], c[1..]); }
  }

  ghost predicate IsLeast(k: string, keys: set<string>) { k in keys && forall l | l in keys :: AtMost(k, l) }

  lemma {:induction false} LeastExists(keys: set<string>)
    requires keys != {}
    ensures exists k :: IsLeast(k, keys)
    decreases |keys|
  {
    var k :| k in keys;
    AtMostTotal(k, k);
    var others := keys - {k};
    if others == {} {
      assert keys == {k};
      assert IsLeast(k, keys);
    } else {
      LeastExists(others);
      var l :| IsLeast(l, others);
      AtMostTotal(k, l);
      var m := if AtMost(k, l) then k else l;
      forall x | x in keys ensures AtMost(m, x) {
        if x != k && AtMost(k, l) { AtMostTransitive(k, l, x); }
      }
      assert IsLeast(m, keys);
    }
  }

  ghost function Least(keys: set<string>): (k: string)
    requires keys != {}
    ensures IsLeast(k, keys)
  {
    LeastExists(keys);
    var k :| IsLeast(k, keys);
    k
  }

  ghost function SortedKeys(keys: set<string>): (s: seq<string>)
    ensures forall k :: k in s <==> k in keys
    decreases |keys|
  {
    if keys == {} then [] else [Least(keys)] + SortedKeys(keys - {Least(keys)})
  }

  ghost predicate Before(a: string, b: string) { AtMost(a, b) && a != b }

  ghost predicate Ascending(s: seq<string>) {
    s != [] ==> (forall k | k in s[1..] :: Before(s[0], k)) && Ascending(s[1..])
  }

  lemma {:induction false} SortedKeysAscend(keys: set<string>)
    ensures Ascending(SortedKeys(keys))
    decreases |keys|
  {
    if keys != {} {
      var k := Least(keys);
      assert SortedKeys(keys)[1..] == SortedKeys(keys - {k});
      forall l | l in SortedKeys(keys - {k}) ensures Before(k, l) {
        assert l in keys - {k};
      }
      SortedKeysAscend(keys - {k});
    }
  }

  // ---- rendering and reading a body ----

  function Line(key: string, value: string): string { key + " " + value + "\n" }

  function Body(keys: seq<string>, m: map<string, string>): string
    requires forall k | k in keys :: k in m
  {
    if keys == [] then "" else Line(keys[0], m[keys[0]]) + Body(keys[1..], m)
  }

  ghost function BodyOf(m: map<string, string>): string { Body(SortedKeys(m.Keys), m) }

  datatype Entry = Entry(key: string, value: string)

  /** Reading a body: one entry per line, the name before the first space. */
  function Entries(s: string): seq<Entry>
    decreases |s|
  {
    if s == "" then []
    else
      var e := Next(s, 0, '\n');
      var sp := Next(s[..e], 0, ' ');
      [Entry(s[..sp], s[Min(sp + 1, e)..e])] + Entries(s[Min(e + 1, |s|)..])
  }

  function MapOf(entries: seq<Entry>): map<string, string> {
    if entries == [] then map[] else MapOf(entries[1..])[entries[0].key := entries[0].value]
  }

  ghost predicate Clean(m: map<string, string>) {
    forall k | k in m :: Without(k, ' ') && Without(k, LF) && Without(m[k], LF)
  }

  lemma {:induction false} LineIsRead(key: string, value: string, rest: string)
    requires Without(key, ' ') && Without(key, LF) && Without(value, LF)
    ensures Entries(Line(key, value) + rest) == [Entry(key, value)] + Entries(rest)
  {
    var line := key + " " + value;
    var s := Line(key, value) + rest;
    assert s == line + "\n" + rest;
    assert s[..|line|] == line && s[|line| + 1..] == rest;
    assert Next(s, 0, LF) == |line| by {
      assert forall i | 0 <= i < |line| :: s[i] == line[i] && line[i] != LF;
      NextIs(s, 0, LF, |line|);
    }
    assert Next(line, 0, ' ') == |key| by {
      assert forall i | 0 <= i < |key| :: line[i] == key[i];
      NextIs(line, 0, ' ', |key|);
    }
    assert s[..|key|] == key && s[|key| + 1..|line|] == value;
  }

  function Pairs(keys: seq<string>, m: map<string, string>): (es: seq<Entry>)
    requires forall k | k in keys :: k in m
    ensures |es| == |keys| && forall i | 0 <= i < |keys| :: es[i] == Entry(keys[i], m[keys[i]])
  {
    if keys == [] then [] else [Entry(keys[0], m[keys[0]])] + Pairs(keys[1..], m)
  }

  lemma {:induction false} BodyIsRead(keys: seq<string>, m: map<string, string>)
    requires Clean(m) && forall k | k in keys :: k in m
    ensures Entries(Body(keys, m)) == Pairs(keys, m)
  {
    if keys != [] {
      LineIsRead(keys[0], m[keys[0]], Body(keys[1..], m));
      BodyIsRead(keys[1..], m);
    }
  }

  lemma {:induction false} MapOfEntries(entries: seq<Entry>, m: map<string, string>)
    requires forall e | e in entries :: e.key in m && m[e.key] == e.value
    ensures forall k :: k in MapOf(entries) <==> exists i :: 0 <= i < |entries| && entries[i].key == k
    ensures forall k | k in MapOf(entries) :: k in m && MapOf(entries)[k] == m[k]
  {
    if entries != [] {
      MapOfEntries(entries[1..], m);
      forall k ensures k in MapOf(entries) <==> exists i :: 0 <= i < |entries| && entries[i].key == k {
        if i :| 0 <= i < |entries| && entries[i].key == k && i > 0 { assert entries[1..][i - 1].key == k; }
        if k in MapOf(entries[1..]) {
          var i :| 0 <= i < |entries[1..]| && entries[1..][i].key == k;
          assert entries[i + 1].key == k;
        }
      }
    }
  }

  /** A scrape's body carries exactly the database. */
  lemma BodyRoundTrip(m: map<string, string>)
    requires Clean(m)
    ensures MapOf(Entries(BodyOf(m))) == m
  {
    var keys := SortedKeys(m.Keys);
    var entries := Entries(BodyOf(m));
    BodyIsRead(keys, m);
    MapOfEntries(entries, m);
    forall k | k in m ensures k in MapOf(entries) {
      var i :| 0 <= i < |keys| && keys[i] == k;
      assert entries[i].key == k;
    }
  }

  /** The line of a metric: its name, a space, its value, and a line feed. */
  lemma PageOfOne(name: string, value: string)
    ensures BodyOf(map[name := value]) == name + " " + value + "\n"
  {
    var m := map[name := value];
    assert m.Keys == {name} && Least(m.Keys) == name;
    assert SortedKeys(m.Keys) == [name] + SortedKeys(m.Keys - {name});
    assert m.Keys - {name} == {};
    assert Body([name], m) == Line(name, value) + Body([name][1..], m);
  }

  function Names(entries: seq<Entry>): seq<string> {
    seq(|entries|, i requires 0 <= i < |entries| => entries[i].key)
  }

  /** Its lines stand in strictly ascending order of the names. */
  lemma BodyAscends(m: map<string, string>)
    requires Clean(m)
    ensures Ascending(Names(Entries(BodyOf(m))))
  {
    var keys := SortedKeys(m.Keys);
    BodyIsRead(keys, m);
    SortedKeysAscend(m.Keys);
    assert Names(Pairs(keys, m)) == keys;
  }
}
