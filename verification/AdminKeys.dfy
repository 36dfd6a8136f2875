/** Keys of the Zenoh admin space: split at '/', checked, and joined again. */
module AdminKeys {
  import opened Options

  datatype Entity = Entity(zid: string, mode: string, kind: string, expr: string)

  predicate SlashFree(s: string) { '/' !in s }

  /** str::split: one part more than there are slashes. */
  function Split(s: string): (parts: seq<string>)
    ensures parts != [] && forall i :: 0 <= i < |parts| ==> SlashFree(parts[i])
  {
    if s == [] then [[]]
    else
      var rest := Split(s[1..]);
      if s[0] == '/' then [[]] + rest else [[s[0]] + rest[0]] + rest[1..]
  }

  function Join(parts: seq<string>): string {
    if parts == [] then []
    else if |parts| == 1 then parts[0]
    else parts[0] + "/" + Join(parts[1..])
  }

  lemma {:induction false} JoinOfSplit(s: string)
    ensures Join(Split(s)) == s
  {
    if s != [] {
      JoinOfSplit(s[1..]);
      var rest := Split(s[1..]);
      if s[0] == '/' {
        assert ([[]] + rest)[1..] == rest;
      } else {
        var parts := [[s[0]] + rest[0]] + rest[1..];
        assert parts[1..] == rest[1..];
        assert s == [s[0]] + s[1..];
        if |rest| > 1 {
          assert [s[0]] + (rest[0] + "/" + Join(rest[1..])) == ([s[0]] + rest[0]) + "/" + Join(rest[1..]);
        }
      }
    }
  }

  lemma {:induction false} SplitOfPart(part: string)
    requires SlashFree(part)
    ensures Split(part) == [part]
  {
    if part != [] {
      SplitOfPart(part[1..]);
      assert part == [part[0]] + part[1..];
    }
  }

  lemma {:induction false} SplitAtSlash(part: string, rest: string)
    requires SlashFree(part)
    ensures Split(part + "/" + rest) == [part] + Split(rest)
  {
    var s := part + "/" + rest;
    if part == [] {
      assert s[1..] == rest;
    } else {
      assert s[1..] == part[1..] + "/" + rest;
      SplitAtSlash(part[1..], rest);
      assert part == [part[0]] + part[1..];
    }
  }

  lemma {:induction false} SplitOfJoin(parts: seq<string>)
    requires parts != [] && forall i :: 0 <= i < |parts| ==> SlashFree(parts[i])
    ensures Split(Join(parts)) == parts
  {
    if |parts| == 1 {
      SplitOfPart(parts[0]);
    } else {
      SplitOfJoin(parts[1..]);
      SplitAtSlash(parts[0], Join(parts[1..]));
    }
  }

  lemma {:induction false} JoinAppend(a: seq<string>, b: seq<string>)
    requires a != [] && b != []
    ensures Join(a + b) == Join(a) + "/" + Join(b)
  {
    if |a| == 1 {
      assert (a + b)[1..] == b;
    } else {
      assert (a + b)[1..] == a[1..] + b;
      JoinAppend(a[1..], b);
    }
  }

  /** One key of parse_admin_entities. */
  function Parse(key: string): Option<Entity> {
    var parts := Split(key);
    if |parts| < 6 || parts[0] != "@" then None
    else
      var zid, mode, kind, last := parts[1], parts[2], parts[3], parts[|parts| - 1];
      if last != kind then None
      else
        var expr := Join(parts[4..|parts| - 1]);
        if expr == "" then None else Some(Entity(zid, mode, kind, expr))
  }

  /** parse_admin_entities: the keys that parse, in order. */
  function ParseEntities(keys: seq<string>): seq<Entity> {
    if keys == [] then []
    else
      var before, parsed := ParseEntities(keys[..|keys| - 1]), Parse(keys[|keys| - 1]);
      if parsed.Some? then before + [parsed.value] else before
  }

  /** `@/zid/mode/kind/expr/kind` */
  function AdminKey(e: Entity): string {
    "@" + "/" + e.zid + "/" + e.mode + "/" + e.kind + "/" + e.expr + "/" + e.kind
  }

  predicate Declarable(e: Entity) {
    SlashFree(e.zid) && SlashFree(e.mode) && SlashFree(e.kind) && e.expr != ""
  }

  lemma JoinSnoc(parts: seq<string>, last: string)
    requires parts != []
    ensures Join(parts + [last]) == Join(parts) + "/" + last
  {
    JoinAppend(parts, [last]);
  }

  lemma JoinKey(e: Entity, expr: seq<string>)
    requires expr != [] && Join(expr) == e.expr
    ensures Join(["@", e.zid, e.mode, e.kind] + expr + [e.kind]) == AdminKey(e)
  {
    hide Join;
    assert Join(["@"]) == "@" by { SingleJoin("@"); }
    JoinSnoc(["@"], e.zid);
    JoinSnoc(["@", e.zid], e.mode);
    JoinSnoc(["@", e.zid, e.mode], e.kind);
    assert ["@"] + [e.zid] == ["@", e.zid] && ["@", e.zid] + [e.mode] == ["@", e.zid, e.mode];
    assert ["@", e.zid, e.mode] + [e.kind] == ["@", e.zid, e.mode, e.kind];
    JoinAppend(["@", e.zid, e.mode, e.kind], expr);
    JoinSnoc(["@", e.zid, e.mode, e.kind] + expr, e.kind);
  }

  lemma SingleJoin(part: string)
    ensures Join([part]) == part
  {
  }

  lemma KeyParses(e: Entity)
    requires Declarable(e)
    ensures Parse(AdminKey(e)) == Some(e)
  {
    var head, expr := ["@", e.zid, e.mode, e.kind], Split(e.expr);
    var parts := head + expr + [e.kind];
    JoinOfSplit(e.expr);
    JoinKey(e, expr);
    SplitOfJoin(parts);
    assert parts[4..|parts| - 1] == expr;
  }

  lemma ParsedRebuilds(key: string, e: Entity)
    requires Parse(key) == Some(e)
    ensures Declarable(e) && key == AdminKey(e)
  {
    var parts := Split(key);
    var expr := parts[4..|parts| - 1];
    JoinOfSplit(key);
    JoinKey(e, expr);
    assert parts == ["@", e.zid, e.mode, e.kind] + expr + [e.kind];
  }

  /** A key parses to an entity exactly when it is that entity's key, slashes in the expression included. */
  lemma ParseInvertsKey(key: string, e: Entity)
    ensures Parse(key) == Some(e) <==> Declarable(e) && key == AdminKey(e)
  {
    if Parse(key) == Some(e) {
      ParsedRebuilds(key, e);
    }
    if Declarable(e) && key == AdminKey(e) {
      KeyParses(e);
    }
  }

  predicate Distinct<T(==)>(s: seq<T>) {
    forall i, j :: 0 <= i < j < |s| ==> s[i] != s[j]
  }

  /** The parsed entities are exactly those whose keys are present, and distinct keys give distinct entities. */
  lemma {:induction false} EntitiesMatchKeys(keys: seq<string>)
    ensures forall e :: e in ParseEntities(keys) <==> Declarable(e) && AdminKey(e) in keys
    ensures Distinct(keys) ==> Distinct(ParseEntities(keys))
  {
    if keys != [] {
      var before, key := keys[..|keys| - 1], keys[|keys| - 1];
      EntitiesMatchKeys(before);
      assert keys == before + [key];
      forall e
        ensures Parse(key) == Some(e) <==> Declarable(e) && key == AdminKey(e)
      {
        ParseInvertsKey(key, e);
      }
    }
  }
}
