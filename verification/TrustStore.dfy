/** The trust store (`trust_store.py`): two dictionaries, from node to key object and from node
    to raw key bytes, kept in step. Whether 32 bytes form a key is a parameter. */
module TrustStore {
  import opened Common

  // The key object; its raw form is the bytes it was built from.
  datatype Key = Key(raw: Bytes)

  // The contents of the two dictionaries.
  datatype Keys = Keys(objects: map<string, Key>, raw: map<string, Bytes>)

  const NO_KEYS := Keys(map[], map[])

  predicate Loadable(isKey: Bytes -> bool, key: Bytes) {
    |key| == 32 && isKey(key)
  }

  /** The two dictionaries hold the same nodes with the same, loadable, keys. */
  ghost predicate InStep(isKey: Bytes -> bool, k: Keys) {
    && k.objects.Keys == k.raw.Keys
    && forall n | n in k.raw :: k.objects[n].raw == k.raw[n] && Loadable(isKey, k.raw[n])
  }

  function Loaded(isKey: Bytes -> bool, k: Keys, node: string, key: Bytes): Keys {
    if Loadable(isKey, key) then Keys(k.objects[node := Key(key)], k.raw[node := key]) else k
  }

  function Removed(k: Keys, node: string): Keys {
    Keys(k.objects - {node}, k.raw - {node})
  }

  function Trusted(isKey: Bytes -> bool, k: Keys, node: string, key: Bytes): bool {
    node in k.raw && |key| == 32 && |k.raw[node]| == 32 && isKey(k.raw[node]) && isKey(key)
    && Key(k.raw[node]).raw == Key(key).raw
  }

  class Store {
    const isKey: Bytes -> bool
    var trustedKeys: map<string, Key>
    var keyBytes: map<string, Bytes>

    ghost function Contents(): Keys
      reads this
    {
      Keys(trustedKeys, keyBytes)
    }

    ghost predicate Valid()
      reads this
    {
      InStep(isKey, Contents())
    }

    constructor (isKey: Bytes -> bool)
      ensures Valid() && Contents() == NO_KEYS && this.isKey == isKey
    {
      this.isKey := isKey;
      trustedKeys := map[];
      keyBytes := map[];
    }

    method LoadKeyBytes(node: string, key: Bytes) returns (ok: bool)
      requires Valid()
      modifies this
      ensures Valid() && Contents() == Loaded(isKey, old(Contents()), node, key)
      ensures ok <==> |key| == 32 && isKey(key)
    {
      if |key| != 32 {
        return false;
      }
      if !isKey(key) {
        return false;
      }
      trustedKeys := trustedKeys[node := Key(key)];
      keyBytes := keyBytes[node := key];
      ok := true;
    }

    method RemoveKey(node: string)
      requires Valid()
      modifies this
      ensures Valid() && Contents() == Removed(old(Contents()), node)
    {
      trustedKeys := trustedKeys - {node};
      keyBytes := keyBytes - {node};
    }

    method IsTrusted(node: string, key: Bytes) returns (trusted: bool)
      requires Valid()
      ensures trusted == Trusted(isKey, Contents(), node, key)
      ensures trusted <==> node in trustedKeys && trustedKeys[node] == Key(key)
    {
      if node !in keyBytes {
        return false;
      }
      var stored := keyBytes[node];
      if |key| != 32 || |stored| != 32 {
        return false;
      }
      if !isKey(stored) || !isKey(key) {
        return false;
      }
      trusted := Key(stored).raw == Key(key).raw;
    }

    /** A key object is found exactly for a node with a trusted key, and is that key's. */
    function GetPublicKey(node: string): (key: Option<Key>)
      reads this
      ensures Valid() ==> forall raw :: key == Some(Key(raw)) <==> Trusted(isKey, Contents(), node, raw)
    {
      if node in trustedKeys then Some(trustedKeys[node]) else None
    }

    /** The bytes found are those of the key trusted for the node, and none are found without one. */
    function GetPublicKeyBytes(node: string): (raw: Option<Bytes>)
      requires Valid()
      reads this
      ensures forall key :: raw == Some(key) <==> Trusted(isKey, Contents(), node, key)
      ensures raw.Some? <==> GetPublicKey(node).Some?
      ensures raw.Some? ==> raw.value == GetPublicKey(node).value.raw && Trusted(isKey, Contents(), node, raw.value)
    {
      if node in keyBytes then Some(keyBytes[node]) else None
    }
  }

  // ----- which key is trusted after a history of operations

  datatype Operation = Load(node: string, key: Bytes) | Remove(node: string)

  function After(isKey: Bytes -> bool, ops: seq<Operation>): Keys {
    if ops == [] then NO_KEYS
    else
      var k := After(isKey, ops[..|ops| - 1]);
      match ops[|ops| - 1]
      case Load(node, key) => Loaded(isKey, k, node, key)
      case Remove(node) => Removed(k, node)
  }

  // The operation changed what is held for `node`.
  predicate Touches(isKey: Bytes -> bool, op: Operation, node: string) {
    op.node == node && (op.Load? ==> Loadable(isKey, op.key))
  }

  // Operation `i` loaded exactly `key` for `node`, and nothing has touched the node since.
  ghost predicate LastLoad(isKey: Bytes -> bool, ops: seq<Operation>, node: string, key: Bytes, i: nat) {
    && i < |ops| && ops[i] == Load(node, key) && Loadable(isKey, key)
    && forall j | i < j < |ops| :: !Touches(isKey, ops[j], node)
  }

  lemma OneOperation(isKey: Bytes -> bool, k: Keys, op: Operation, node: string, key: Bytes)
    requires InStep(isKey, k)
    ensures var after := match op case Load(n, b) => Loaded(isKey, k, n, b) case Remove(n) => Removed(k, n);
      && InStep(isKey, after)
      && (Trusted(isKey, after, node, key) <==>
            if Touches(isKey, op, node) then op == Load(node, key) else Trusted(isKey, k, node, key))
  {
  }

  lemma LastLoadStep(isKey: Bytes -> bool, ops: seq<Operation>, node: string, key: Bytes)
    requires ops != []
    ensures var n := |ops| - 1;
      (exists i :: LastLoad(isKey, ops, node, key, i)) <==>
        if Touches(isKey, ops[n], node) then ops[n] == Load(node, key)
        else exists i :: LastLoad(isKey, ops[..n], node, key, i)
  {
    hide Loadable;
    var n := |ops| - 1;
    if Touches(isKey, ops[n], node) {
      assert ops[n] == Load(node, key) ==> LastLoad(isKey, ops, node, key, n);
      assert forall i :: LastLoad(isKey, ops, node, key, i) ==> i == n;
    } else {
      assert forall i :: LastLoad(isKey, ops, node, key, i) <==> LastLoad(isKey, ops[..n], node, key, i);
    }
  }

  /** After any history of loads and removals, failed loads included, a key is trusted for a
      node exactly when the last operation that touched the node loaded that key. */
  lemma {:induction false} TrustedExactly(isKey: Bytes -> bool, ops: seq<Operation>, node: string, key: Bytes)
    ensures InStep(isKey, After(isKey, ops))
    ensures Trusted(isKey, After(isKey, ops), node, key) <==> exists i :: LastLoad(isKey, ops, node, key, i)
  {
    if ops != [] {
      hide Loaded, Removed, InStep, Trusted, Touches, LastLoad;
      var n := |ops| - 1;
      var before := ops[..n];
      TrustedExactly(isKey, before, node, key);
      OneOperation(isKey, After(isKey, before), ops[n], node, key);
      LastLoadStep(isKey, ops, node, key);
    }
  }
}
