/**
 * `GAME_MAP`, the JavaScript object from normalised game name to AppID, as the
 * list of its entries in enumeration order, and the loops of `fetchAppIdMap`
 * that fill it from an already parsed AppID list.
 */
module GameMaps {
  import opened Wrappers
  import opened Names
  import Text

  datatype Entry = Entry(key: string, value: string)

  type GameMap = seq<Entry>

  /** An object has each property once. */
  predicate UniqueKeys(m: GameMap) {
    forall i, j :: 0 <= i < j < |m| ==> m[i].key != m[j].key
  }

  predicate HasKey(m: GameMap, k: string) {
    exists i :: 0 <= i < |m| && m[i].key == k
  }

  /** `m[k]`; `None` is `undefined`. */
  function Lookup(m: GameMap, k: string): (r: Option<string>)
    ensures r.Some? <==> HasKey(m, k)
    ensures r.Some? ==> exists i :: 0 <= i < |m| && m[i] == Entry(k, r.value)
  {
    if |m| == 0 then None
    else if m[0].key == k then Some(m[0].value)
    else
      var r := Lookup(m[1..], k);
      assert r.Some? ==> exists i :: 0 <= i < |m| - 1 && m[1..][i] == Entry(k, r.value);
      assert HasKey(m[1..], k) ==> HasKey(m, k) by {
        if HasKey(m[1..], k) {
          var i :| 0 <= i < |m| - 1 && m[1..][i].key == k;
          assert m[i + 1].key == k;
        }
      }
      assert HasKey(m, k) ==> HasKey(m[1..], k) by {
        if HasKey(m, k) {
          var i :| 0 <= i < |m| && m[i].key == k;
          assert m[1..][i - 1].key == k;
        }
      }
      r
  }

  /**
   * `m[k] = v`: an existing property keeps its place and takes the new value,
   * a new one goes to the end.
   */
  function Put(m: GameMap, k: string, v: string): (r: GameMap)
    ensures HasKey(m, k) ==> |r| == |m|
    ensures !HasKey(m, k) ==> r == m + [Entry(k, v)]
    ensures forall i :: 0 <= i < |m| ==> r[i].key == m[i].key
  {
    if |m| == 0 then [Entry(k, v)]
    else if m[0].key == k then [Entry(k, v)] + m[1..]
    else
      assert HasKey(m, k) <==> HasKey(m[1..], k) by {
        if HasKey(m, k) {
          var i :| 0 <= i < |m| && m[i].key == k;
          assert m[1..][i - 1].key == k;
        }
        if HasKey(m[1..], k) {
          var i :| 0 <= i < |m| - 1 && m[1..][i].key == k;
          assert m[i + 1].key == k;
        }
      }
      [m[0]] + Put(m[1..], k, v)
  }

  /** Storing a property keeps each key once. */
  lemma PutUnique(m: GameMap, k: string, v: string)
    requires UniqueKeys(m)
    ensures UniqueKeys(Put(m, k, v))
  {
    var r := Put(m, k, v);
    if !HasKey(m, k) {
      forall i, j | 0 <= i < j < |r| ensures r[i].key != r[j].key {
        if j == |m| {
          assert r[i].key == m[i].key;
        }
      }
    }
  }

  /** After `m[k] = v`, `k` reads `v` and every other key reads what it did before. */
  lemma PutLookup(m: GameMap, k: string, v: string, k': string)
    requires UniqueKeys(m)
    ensures UniqueKeys(Put(m, k, v))
    ensures Lookup(Put(m, k, v), k') == if k' == k then Some(v) else Lookup(m, k')
  {
    PutUnique(m, k, v);
    PutLookupAny(m, k, v, k');
  }

  lemma {:induction false} PutLookupAny(m: GameMap, k: string, v: string, k': string)
    ensures Lookup(Put(m, k, v), k') == if k' == k then Some(v) else Lookup(m, k')
  {
    if |m| > 0 && m[0].key != k {
      PutLookupAny(m[1..], k, v, k');
      assert Put(m, k, v)[1..] == Put(m[1..], k, v);
    }
  }

  /** `Object.keys(m).find(key => m[key] === v)`: the first key, in order, whose value is `v`. */
  function FirstKeyWithValue(m: GameMap, v: string): (r: Option<string>)
    ensures r.None? <==> forall i :: 0 <= i < |m| ==> m[i].value != v
    ensures r.Some? ==> exists i :: 0 <= i < |m| && m[i] == Entry(r.value, v)
                          && forall j :: 0 <= j < i ==> m[j].value != v
  {
    if |m| == 0 then None
    else if m[0].value == v then Some(m[0].key)
    else
      var r := FirstKeyWithValue(m[1..], v);
      assert r.Some? ==> exists i :: 1 <= i < |m| && m[i] == Entry(r.value, v)
                          && forall j :: 0 <= j < i ==> m[j].value != v by {
        if r.Some? {
          var i :| 0 <= i < |m| - 1 && m[1..][i] == Entry(r.value, v)
                   && forall j :: 0 <= j < i ==> m[1..][j].value != v;
          assert forall j :: 1 <= j < i + 1 ==> m[j].value == m[1..][j - 1].value;
        }
      }
      assert r.None? ==> forall i :: 0 <= i < |m| ==> m[i].value != v by {
        if r.None? {
          forall i | 1 <= i < |m| ensures m[i].value != v {
            assert m[i] == m[1..][i - 1];
          }
        }
      }
      r
  }

  // ---- fetchAppIdMap ----

  /** One (AppID, name) pair from the downloaded list, the AppID already as text. */
  datatype NamedApp = NamedApp(appid: string, name: string)

  /** An element of the array-shaped list: `appid` and `name` may be missing. */
  datatype AppItem = AppItem(appid: Option<nat>, name: Option<string>)

  /** `item.appid && item.name`: both present and truthy (a non-zero number, a non-empty string). */
  predicate Truthy(item: AppItem) {
    item.appid.Some? && item.appid.value != 0 && item.name.Some? && item.name.value != ""
  }

  /** The pairs that the array branch stores, in array order, with `String(item.appid)`. */
  function ArrayPairs(items: seq<AppItem>): (ps: seq<NamedApp>)
    ensures |ps| <= |items|
  {
    if |items| == 0 then []
    else
      var last := items[|items| - 1];
      ArrayPairs(items[..|items| - 1])
        + (if Truthy(last) then [NamedApp(Text.NatToString(last.appid.value), last.name.value)] else [])
  }

  lemma ArrayPairsStep(items: seq<AppItem>, i: nat)
    requires i < |items|
    ensures ArrayPairs(items[..i + 1])
         == ArrayPairs(items[..i])
            + (if Truthy(items[i]) then [NamedApp(Text.NatToString(items[i].appid.value), items[i].name.value)] else [])
  {
    assert items[..i + 1][..i] == items[..i];
  }

  /** `GAME_MAP[normalizeName(name)] = appid` for each pair in turn. */
  function Assign(m: GameMap, ps: seq<NamedApp>): GameMap {
    if |ps| == 0 then m
    else
      var p := ps[|ps| - 1];
      Put(Assign(m, ps[..|ps| - 1]), NormalizeName(p.name), p.appid)
  }

  lemma AssignStep(m: GameMap, ps: seq<NamedApp>, p: NamedApp)
    ensures Assign(m, ps + [p]) == Put(Assign(m, ps), NormalizeName(p.name), p.appid)
  {
    assert (ps + [p])[..|ps|] == ps;
  }

  /** The AppID of the last pair whose name normalises to `k`. */
  function LastAppIdFor(ps: seq<NamedApp>, k: string): Option<string> {
    if |ps| == 0 then None
    else if NormalizeName(ps[|ps| - 1].name) == k then Some(ps[|ps| - 1].appid)
    else LastAppIdFor(ps[..|ps| - 1], k)
  }

  /**
   * After the loop, every normalised name maps to the AppID of the last pair
   * with that name (later pairs overwrite earlier ones); other keys are untouched.
   */
  lemma {:induction false} AssignLookup(m: GameMap, ps: seq<NamedApp>, k: string)
    requires UniqueKeys(m)
    ensures UniqueKeys(Assign(m, ps))
    ensures Lookup(Assign(m, ps), k)
         == match LastAppIdFor(ps, k)
            case Some(a) => Some(a)
            case None => Lookup(m, k)
  {
    if |ps| > 0 {
      var p := ps[|ps| - 1];
      AssignLookup(m, ps[..|ps| - 1], k);
      PutLookup(Assign(m, ps[..|ps| - 1]), NormalizeName(p.name), p.appid, k);
    }
  }

  /** Filling the map only adds keys after the ones already there. */
  lemma {:induction false} AssignKeepsKeys(m: GameMap, ps: seq<NamedApp>)
    ensures |Assign(m, ps)| >= |m|
    ensures forall i :: 0 <= i < |m| ==> Assign(m, ps)[i].key == m[i].key
  {
    if |ps| > 0 {
      AssignKeepsKeys(m, ps[..|ps| - 1]);
    }
  }
}
