/** Decoded JSON documents and the schema-tolerant accessor the package's
    `stringMap` type offers (`GetMap`, `GetString`). */
module Json {
  import opened Base

  /** A decoded JSON value. Numbers are kept as integers: the policy code
      never reads one. */
  datatype Value =
    | Null
    | Bool(b: bool)
    | Number(n: int)
    | Str(s: string)
    | Arr(items: seq<Value>)
    | Obj(fields: map<string, Value>)

  /** A JSON object, the shape of the Go `stringMap`. A nil map is the empty object. */
  type Object = map<string, Value>

  /** The child object at `key`, or the empty object when the key is absent
      or holds something other than an object. Never fails, so calls chain. */
  function GetMap(m: Object, key: string): (r: Object)
  {
    if key in m && m[key].Obj? then m[key].fields else map[]
  }

  /** The string at `key`, or "" when the key is absent or holds a non-string. */
  function GetString(m: Object, key: string): (r: string)
  {
    if key in m && m[key].Str? then m[key].s else ""
  }

  /** A chain of `GetMap` calls, one per key of `path`. */
  function GetPath(m: Object, path: seq<string>): (r: Object)
    decreases |path|
  {
    if |path| == 0 then m else GetPath(GetMap(m, path[0]), path[1..])
  }

  /** Strict navigation: the value at `path`, or None as soon as a key is
      missing or an intermediate value is not an object. This is the
      reference the tolerant accessor is measured against. */
  function Lookup(v: Value, path: seq<string>): (r: Option<Value>)
    decreases |path|
  {
    if |path| == 0 then Some(v)
    else if v.Obj? && path[0] in v.fields then Lookup(v.fields[path[0]], path[1..])
    else None
  }

  /** The object strictly found at `path`, else the empty object. */
  function ObjectAt(v: Value, path: seq<string>): (r: Object) {
    match Lookup(v, path)
    case Some(Obj(f)) => f
    case _ => map[]
  }

  /** The string strictly found at `path`, else "". */
  function StringAt(v: Value, path: seq<string>): (r: string) {
    match Lookup(v, path)
    case Some(Str(s)) => s
    case _ => ""
  }

  lemma {:induction false} GetPathOfEmpty(path: seq<string>)
    ensures GetPath(map[], path) == map[]
    decreases |path|
  {
    if |path| > 0 {
      GetPathOfEmpty(path[1..]);
    }
  }

  /** A chain of `GetMap` calls yields exactly the object strict navigation
      finds, and the empty object whenever strict navigation fails. */
  lemma {:induction false} GetPathAgreesWithLookup(m: Object, path: seq<string>)
    ensures GetPath(m, path) == ObjectAt(Obj(m), path)
    decreases |path|
  {
    if |path| > 0 {
      var key := path[0];
      if key in m && m[key].Obj? {
        GetPathAgreesWithLookup(m[key].fields, path[1..]);
      } else {
        GetPathOfEmpty(path[1..]);
        if key in m {
          assert Lookup(Obj(m), path) == Lookup(m[key], path[1..]);
          if |path[1..]| == 0 {
            assert Lookup(m[key], path[1..]) == Some(m[key]);
          } else {
            assert Lookup(m[key], path[1..]) == None;
          }
        }
      }
    }
  }

  /** Strict navigation to `path + [key]` is navigation to `path`, then one field. */
  lemma {:induction false} LookupAppend(v: Value, path: seq<string>, key: string)
    ensures Lookup(v, path + [key]) ==
      match Lookup(v, path)
      case Some(Obj(f)) => if key in f then Some(f[key]) else None
      case _ => None
    decreases |path|
  {
    if |path| == 0 {
      assert path + [key] == [key];
      assert [key][1..] == [];
    } else {
      assert (path + [key])[0] == path[0];
      assert (path + [key])[1..] == path[1..] + [key];
      if v.Obj? && path[0] in v.fields {
        LookupAppend(v.fields[path[0]], path[1..], key);
      }
    }
  }

  /** The tolerant read `GetPath(m, path).GetString(key)` returns the string
      strictly stored at `path + [key]`, and "" in every other case: missing
      keys and type mismatches at any depth read as "", never as a failure. */
  lemma ReadAgreesWithLookup(m: Object, path: seq<string>, key: string)
    ensures GetString(GetPath(m, path), key) == StringAt(Obj(m), path + [key])
  {
    GetPathAgreesWithLookup(m, path);
    LookupAppend(Obj(m), path, key);
  }

  /** Strict navigation along `p + q` is navigation along `p`, then along `q`. */
  lemma {:induction false} LookupConcat(v: Value, p: seq<string>, q: seq<string>)
    ensures Lookup(v, p + q) ==
      match Lookup(v, p)
      case Some(w) => Lookup(w, q)
      case None => None
    decreases |p|
  {
    if |p| == 0 {
      assert p + q == q;
    } else {
      assert (p + q)[0] == p[0];
      assert (p + q)[1..] == p[1..] + q;
      if v.Obj? && p[0] in v.fields {
        LookupConcat(v.fields[p[0]], p[1..], q);
      }
    }
  }

  /** A `GetMap` chain along `p + q` is the chain along `p`, then along `q`. */
  lemma {:induction false} GetPathConcat(m: Object, p: seq<string>, q: seq<string>)
    ensures GetPath(m, p + q) == GetPath(GetPath(m, p), q)
    decreases |p|
  {
    if |p| == 0 {
      assert p + q == q;
    } else {
      assert (p + q)[0] == p[0];
      assert (p + q)[1..] == p[1..] + q;
      GetPathConcat(GetMap(m, p[0]), p[1..], q);
    }
  }
}
