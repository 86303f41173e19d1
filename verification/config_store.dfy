/** `AbstractConfig`: an observable string-to-string property store. Every
    observable write produces one change-set (the set of keys it wrote);
    bulk updates arrive as parsed `key = value` payloads and skip the keys the
    store declares unmodifiable. Notification is modelled by returning the
    change-set; the observers that receive it are modelled where they live. */
module ConfigStore {
  import opened Wrappers
  import opened JavaText
  import opened Coap

  type Store = map<string, string>
  type ChangeSet = set<string>

  /** A reply sent to a CoAP request on the configuration resource. The
      listing of changed keys in a 2.04 reply is left out: it is the
      hash-set order of `Arrays.toString`. */
  datatype Reply = Reply(code: Code, message: Option<string>)

  /** The outcome of one operation: the new store, the change-set notified
      (`None` when no notification fires) and the reply. */
  datatype Outcome = Outcome(store: Store, notified: Option<ChangeSet>, reply: Reply)

  const ParseFailure: string := "Configuration was not able to be parsed"

  /** The keys a change-set names are all present in the store it describes:
      observers read each of them back with `getProperty`. */
  predicate Describes(m: Store, cs: ChangeSet) {
    cs <= m.Keys
  }

  // ------------------------------------------------------------ change-set

  /** `new ConfigChangeSet(keys...)`: the keys, each once. */
  function ChangeSetOf(keys: seq<string>): (cs: ChangeSet)
    ensures forall k :: k in cs <==> k in keys
    ensures |cs| <= |keys|
  {
    if |keys| == 0 then {}
    else
      var rest := ChangeSetOf(keys[1..]);
      assert forall k :: k in keys <==> k == keys[0] || k in keys[1..];
      {keys[0]} + rest
  }

  // --------------------------------------------------- setPropertyAndNotify

  /** The keys of the complete (key, value) pairs of a vararg list; a final
      key without a value is not one of them. */
  function PairedKeys(props: seq<string>): set<string> {
    set k | 0 <= k < |props| / 2 :: props[2 * k]
  }

  /** The value of the last complete pair whose key is `key`, scanning the
      pairs from the end. */
  function LastPairedValue(props: seq<string>, key: string): (r: Option<string>)
    ensures r.Some? <==> key in PairedKeys(props)
    decreases |props|
  {
    var n := |props| / 2;
    if n == 0 then None
    else if props[2 * n - 2] == key then
      assert props[2 * (n - 1)] == key;
      Some(props[2 * n - 1])
    else
      var shorter := props[..2 * n - 2];
      assert PairedKeys(props) == PairedKeys(shorter) + {props[2 * n - 2]} by {
        assert |shorter| / 2 == n - 1;
        forall j | 0 <= j < n - 1 ensures shorter[2 * j] == props[2 * j] {}
        assert props[2 * (n - 1)] == props[2 * n - 2];
      }
      LastPairedValue(shorter, key)
  }

  /** Applies the pairs front to back, as the `i += 2` loop does. */
  function ApplyPairs(m: Store, props: seq<string>): Store
    decreases |props|
  {
    if |props| < 2 then m else ApplyPairs(m[props[0] := props[1]], props[2..])
  }

  /** `setPropertyAndNotify(props...)`: writes every complete pair, then
      fires exactly one notification naming exactly the paired keys. */
  function SetPropertyAndNotify(m: Store, props: seq<string>): (o: Outcome)
    ensures o.notified == Some(PairedKeys(props))
    ensures o.store.Keys == m.Keys + PairedKeys(props)
    ensures forall k :: k in PairedKeys(props) ==>
      LastPairedValue(props, k).Some? && o.store[k] == LastPairedValue(props, k).value
    ensures forall k :: k in m && k !in PairedKeys(props) ==> o.store[k] == m[k]
    ensures Describes(o.store, o.notified.value)
  {
    ApplyPairsSpec(m, props);
    Outcome(ApplyPairs(m, props), Some(PairedKeys(props)), Reply(Changed, None))
  }

  lemma {:induction false} ApplyPairsSpec(m: Store, props: seq<string>)
    ensures ApplyPairs(m, props).Keys == m.Keys + PairedKeys(props)
    ensures forall k :: k in PairedKeys(props) ==>
      LastPairedValue(props, k).Some? && ApplyPairs(m, props)[k] == LastPairedValue(props, k).value
    ensures forall k :: k in m && k !in PairedKeys(props) ==> ApplyPairs(m, props)[k] == m[k]
    decreases |props|
  {
    if |props| >= 2 {
      var rest := props[2..];
      ApplyPairsSpec(m[props[0] := props[1]], rest);
      PairedKeysStep(props);
      forall k | k in PairedKeys(props)
        ensures LastPairedValue(props, k).Some?
        ensures ApplyPairs(m, props)[k] == LastPairedValue(props, k).value
      {
        LastPairedValueStep(props, k);
        if k !in PairedKeys(rest) {
          assert k == props[0];
        }
      }
    }
  }

  /** The paired keys are the first key plus the paired keys of the rest. */
  lemma PairedKeysStep(props: seq<string>)
    requires |props| >= 2
    ensures PairedKeys(props) == {props[0]} + PairedKeys(props[2..])
  {
    var rest := props[2..];
    forall k | k in PairedKeys(props) ensures k in {props[0]} + PairedKeys(rest) {
      var j :| 0 <= j < |props| / 2 && props[2 * j] == k;
      if j > 0 {
        assert j - 1 < |rest| / 2;
        assert rest[2 * (j - 1)] == k;
      } else {
        assert k == props[0];
      }
    }
    forall k | k in PairedKeys(rest) ensures k in PairedKeys(props) {
      var j :| 0 <= j < |rest| / 2 && rest[2 * j] == k;
      assert j + 1 < |props| / 2;
      assert props[2 * (j + 1)] == k;
    }
    assert props[2 * 0] == props[0];
    assert props[0] in PairedKeys(props);
  }

  /** The last value of a key is the last value in the rest of the list, or
      the first pair's value when the rest never pairs that key. */
  lemma {:induction false} LastPairedValueStep(props: seq<string>, key: string)
    requires |props| >= 2
    ensures LastPairedValue(props, key) ==
      if LastPairedValue(props[2..], key).Some? then LastPairedValue(props[2..], key)
      else if props[0] == key then Some(props[1]) else None
    decreases |props|
  {
    var n := |props| / 2;
    var rest := props[2..];
    if n >= 2 {
      assert |rest| / 2 == n - 1;
      assert rest[2 * (n - 1) - 2] == props[2 * n - 2];
      assert rest[2 * (n - 1) - 1] == props[2 * n - 1];
      if props[2 * n - 2] != key {
        var shorter := props[..2 * n - 2];
        LastPairedValueStep(shorter, key);
        assert shorter[2..] == rest[..2 * (n - 1) - 2];
      }
    }
  }

  /** Writing one pair and reading the key back gives the value written. */
  lemma SetThenGet(m: Store, k: string, v: string)
    ensures var o := SetPropertyAndNotify(m, [k, v]);
      k in o.store && o.store[k] == v && o.notified == Some({k})
  {
    var props := [k, v];
    assert PairedKeys(props) == {k} by {
      assert props[2 * 0] == k;
    }
  }

  /** A dangling key at the end of the arguments is neither written nor notified. */
  lemma DanglingKeyIgnored(m: Store, props: seq<string>, k: string)
    requires |props| % 2 == 0
    ensures SetPropertyAndNotify(m, props + [k]) == SetPropertyAndNotify(m, props)
  {
    DanglingApply(m, props, k);
    assert PairedKeys(props + [k]) == PairedKeys(props) by {
      forall j | 0 <= j < |props| / 2 ensures (props + [k])[2 * j] == props[2 * j] {}
    }
  }

  lemma {:induction false} DanglingApply(m: Store, props: seq<string>, k: string)
    requires |props| % 2 == 0
    ensures ApplyPairs(m, props + [k]) == ApplyPairs(m, props)
    decreases |props|
  {
    if |props| >= 2 {
      assert (props + [k])[2..] == props[2..] + [k];
      DanglingApply(m[props[0] := props[1]], props[2..], k);
    }
  }

  // ----------------------------------------------------------- typed reads

  /** `getInt`: the parsed value, or 0 when the key is absent or its value is
      not a 32-bit decimal integer; it never fails. */
  function GetInt(m: Store, key: string): (r: int)
    ensures key in m && ParseInt(m[key]).Some? ==> r == ParseInt(m[key]).value
    ensures key !in m || ParseInt(m[key]).None? ==> r == 0
  {
    if key in m then ParseInt(m[key]).GetOr(0) else 0
  }

  /** `getBool`: false when the key is absent, otherwise whether the value
      is "true" ignoring case. */
  function GetBool(m: Store, key: string): (r: bool)
    ensures r <==> key in m && |m[key]| == 4 && Lower(m[key]) == "true"
  {
    key in m && ParseBoolean(m[key])
  }

  /** `setProperty(key, int)` followed by `getInt(key)` gives the integer back. */
  lemma SetIntThenGetInt(m: Store, key: string, i: int)
    requires IntMin <= i <= IntMax
    ensures GetInt(m[key := IntText(i)], key) == i
  {
    IntTextRoundTrip(i);
  }

  /** `setProperty(key, boolean)` followed by `getBool(key)` gives the boolean back. */
  lemma SetBoolThenGetBool(m: Store, key: string, b: bool)
    ensures GetBool(m[key := BoolText(b)], key) == b
  {
    BoolTextRoundTrip(b);
  }

  // ------------------------------------------------------------ bulk update

  /** The modifiable part of a parsed payload. */
  function ModifiablePart(p: Store, isModifiable: string -> bool): (r: Store)
    ensures r.Keys == set k | k in p && isModifiable(k)
    ensures forall k :: k in r ==> r[k] == p[k]
  {
    map k | k in p && isModifiable(k) :: p[k]
  }

  /** `performPOST`: merges the modifiable keys of the payload and notifies
      exactly those; a payload that does not parse is a 4.00 and changes
      nothing. */
  function Post(m: Store, payload: Option<Store>, isModifiable: string -> bool): (o: Outcome)
    ensures payload.None? ==> o == Outcome(m, None, Reply(BadRequest, Some(ParseFailure)))
    ensures payload.Some? ==> o.reply == Reply(Changed, None)
    ensures payload.Some? ==> o.notified == Some(set k | k in payload.value && isModifiable(k))
    ensures payload.Some? ==> forall k ::
      (k in payload.value && isModifiable(k) ==> k in o.store && o.store[k] == payload.value[k]) &&
      (!(k in payload.value && isModifiable(k)) ==> Get(o.store, k) == Get(m, k))
    ensures o.notified.Some? ==> Describes(o.store, o.notified.value)
  {
    match payload
    case None => Outcome(m, None, Reply(BadRequest, Some(ParseFailure)))
    case Some(p) =>
      var q := ModifiablePart(p, isModifiable);
      Outcome(m + q, Some(q.Keys), Reply(Changed, None))
  }

  /** `performPUT`: drops every modifiable key, then writes the modifiable
      keys of the payload and notifies exactly those. Unmodifiable keys keep
      their values even when the payload names them. */
  function Put(m: Store, payload: Option<Store>, isModifiable: string -> bool): (o: Outcome)
    ensures payload.None? ==> o == Outcome(m, None, Reply(BadRequest, Some(ParseFailure)))
    ensures payload.Some? ==> o.reply == Reply(Changed, None)
    ensures payload.Some? ==> o.notified == Some(set k | k in payload.value && isModifiable(k))
    ensures payload.Some? ==> forall k ::
      (isModifiable(k) ==> Get(o.store, k) == Get(payload.value, k)) &&
      (!isModifiable(k) ==> Get(o.store, k) == Get(m, k))
    ensures o.notified.Some? ==> Describes(o.store, o.notified.value)
  {
    match payload
    case None => Outcome(m, None, Reply(BadRequest, Some(ParseFailure)))
    case Some(p) =>
      var kept := map k | k in m && !isModifiable(k) :: m[k];
      var q := ModifiablePart(p, isModifiable);
      Outcome(kept + q, Some(q.Keys), Reply(Changed, None))
  }

  /** `performDELETE`: always 4.05, nothing changes and nobody is notified. */
  function Delete(m: Store): (o: Outcome)
    ensures o.store == m && o.notified.None? && o.reply.code == MethodNotAllowed
  {
    Outcome(m, None, Reply(MethodNotAllowed, None))
  }

  /** A modifiable key that PUT removes because the payload lacks it is not
      named in the change-set: observers are not told about removals. */
  lemma PutRemovalIsSilent(m: Store, p: Store, isModifiable: string -> bool, k: string)
    requires k in m && isModifiable(k) && k !in p
    ensures var o := Put(m, Some(p), isModifiable);
      k !in o.store && k !in o.notified.value
  {
  }

  /** POST with an empty or wholly unmodifiable payload still answers 2.04 and
      still notifies, with an empty change-set. */
  lemma PostOfUnmodifiableKeysOnly(m: Store, p: Store, isModifiable: string -> bool)
    requires forall k :: k in p ==> !isModifiable(k)
    ensures Post(m, Some(p), isModifiable) == Outcome(m, Some({}), Reply(Changed, None))
  {
    var q := ModifiablePart(p, isModifiable);
    assert q.Keys == {};
    assert q == map[];
    assert m + q == m;
  }
}
