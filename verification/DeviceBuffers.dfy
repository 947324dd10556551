/** The device path on the byte buffers it really uses, with the finally blocks that wipe them. */
module DeviceBuffers {
  import opened Common
  import opened Bytes
  import opened Envelope
  import opened DeviceKeys

  /** Remembers every buffer that was ever given a wrapping key or a device key. */
  class SecretMemory {
    ghost var buffers: set<array<byte>>

    constructor ()
      ensures buffers == {}
    {
      buffers := {};
    }

    method Allocate(content: seq<byte>) returns (a: array<byte>)
      modifies this
      ensures fresh(a) && a[..] == content
      ensures buffers == old(buffers) + {a}
    {
      a := new byte[|content|](i requires 0 <= i < |content| => content[i]);
      assert a[..] == content;
      buffers := buffers + {a};
    }
  }

  /** Every buffer registered since `before` is new and holds only zeros. */
  twostate predicate LeftWiped(mem: SecretMemory)
    reads mem, mem.buffers
  {
    old(mem.buffers) <= mem.buffers
    && forall a :: a in mem.buffers && a !in old(mem.buffers) ==> fresh(a) && AllZero(a[..])
  }

  method Zeroize(a: array?<byte>)
    modifies if a == null then {} else {a}
    ensures a != null ==> AllZero(a[..])
  {
    if a != null {
      for i := 0 to a.Length
        invariant forall j :: 0 <= j < i ==> a[j] == 0
      {
        a[i] := 0;
      }
    }
  }

  method DeriveDeviceWrappingKey(mem: SecretMemory, p: Primitives, prfOutput: array<byte>, id: Identity,
      cryptoVersion: int)
    returns (r: Result<array<byte>>)
    modifies mem
    ensures r.Ok? ==> fresh(r.value) && mem.buffers == old(mem.buffers) + {r.value}
    ensures r.Err? ==> mem.buffers == old(mem.buffers)
    ensures match DeriveDwk(p, prfOutput[..], id, cryptoVersion)
            case Ok(dwk) => r.Ok? && r.value[..] == dwk
            case Err(e) => r == Err(e)
  {
    var derived := DeriveDwk(p, prfOutput[..], id, cryptoVersion);
    if derived.Err? {
      return Err(derived.error);
    }
    var dwk := mem.Allocate(derived.value);
    return Ok(dwk);
  }

  method BindDeviceWithWrappingKey(
    mem: SecretMemory, p: Primitives, coins: Coins, dwk: array<byte>, vaultKey: array<byte>, id: Identity,
    cryptoVersion: int)
    returns (r: Result<DeviceBinding>)
    modifies mem
    ensures r == Bind(p, coins, dwk[..], vaultKey[..], id, cryptoVersion)
    ensures LeftWiped(mem)
  {
    if !IsKey(vaultKey[..]) {
      return Err(Protocol);
    }
    var deviceKey := mem.Allocate(coins.deviceKey);
    // try
    var inner := WrapDeviceKey(p, coins.nonce0, deviceKey[..], dwk[..], id, cryptoVersion);
    if inner.Err? {
      r := Err(inner.error);
    } else {
      var outer := WrapVaultKey(
        p.crypto, coins.nonce1, vaultKey[..], deviceKey[..], id.vaultId, ManifestModel.Device, cryptoVersion,
        id.vaultKeyVersion, Some(id.deviceId), Some(id.deviceKeyVersion), None);
      r := if outer.Err? then Err(outer.error) else Ok(DeviceBinding(inner.value, outer.value));
    }
    // finally
    Zeroize(deviceKey);
  }

  method BindDeviceWithPrfOutput(
    mem: SecretMemory, p: Primitives, coins: Coins, prfOutput: array<byte>, vaultKey: array<byte>, id: Identity,
    cryptoVersion: int)
    returns (r: Result<DeviceBinding>)
    requires prfOutput != vaultKey
    modifies mem, prfOutput
    ensures r == BindWithPrf(p, coins, old(prfOutput[..]), vaultKey[..], id, cryptoVersion)
    ensures AllZero(prfOutput[..]) && LeftWiped(mem)
  {
    var dwk: array?<byte> := null;
    // try
    var derived := DeriveDeviceWrappingKey(mem, p, prfOutput, id, cryptoVersion);
    if derived.Err? {
      r := Err(derived.error);
    } else {
      dwk := derived.value;
      r := BindDeviceWithWrappingKey(mem, p, coins, derived.value, vaultKey, id, cryptoVersion);
    }
    // finally
    Zeroize(dwk);
    Zeroize(prfOutput);
  }

  method OpenDeviceEnvelopes(mem: SecretMemory, p: Primitives, b: DeviceBinding, dwk: array<byte>, id: Identity)
    returns (r: Result<array<byte>>)
    modifies mem
    ensures match OpenEnvelopes(p, b, dwk[..], id)
            case Ok(vaultKey) => r.Ok? && r.value[..] == vaultKey && fresh(r.value) && r.value !in mem.buffers
            case Err(e) => r == Err(e)
    ensures LeftWiped(mem)
  {
    var deviceKey: array?<byte> := null;
    // try
    var unwrapped := UnwrapDeviceKey(p, b.deviceKeyEnvelope, dwk[..], id);
    if unwrapped.Err? {
      r := Err(unwrapped.error);
    } else {
      deviceKey := mem.Allocate(unwrapped.value);
      var vaultKey := UnwrapVaultKey(p.crypto, b.deviceEnvelope, deviceKey[..], WantedEnvelope(id));
      if vaultKey.Err? {
        r := Err(vaultKey.error);
      } else {
        var out := new byte[|vaultKey.value|](i requires 0 <= i < |vaultKey.value| => vaultKey.value[i]);
        assert out[..] == vaultKey.value;
        r := Ok(out);
      }
    }
    // finally
    Zeroize(deviceKey);
  }

  method UnwrapVaultKeyWithPrfOutput(
    mem: SecretMemory, p: Primitives, b: DeviceBinding, prfOutput: array<byte>, id: Identity, cryptoVersion: int)
    returns (r: Result<array<byte>>)
    modifies mem, prfOutput
    ensures match UnlockWithPrf(p, b, old(prfOutput[..]), id, cryptoVersion)
            case Ok(vaultKey) => r.Ok? && r.value[..] == vaultKey && fresh(r.value)
            case Err(e) => r == Err(e)
    ensures AllZero(prfOutput[..]) && LeftWiped(mem)
  {
    var dwk: array?<byte> := null;
    // try
    if !ExpectationsOk(id) {
      r := Err(Protocol);
    } else {
      var derived := DeriveDeviceWrappingKey(mem, p, prfOutput, id, cryptoVersion);
      if derived.Err? {
        r := Err(derived.error);
      } else {
        dwk := derived.value;
        r := OpenDeviceEnvelopes(mem, p, b, derived.value, id);
      }
    }
    // finally
    Zeroize(dwk);
    Zeroize(prfOutput);
  }

  method UnwrapVaultKeyWithDeviceWrappingKey(
    mem: SecretMemory, p: Primitives, b: DeviceBinding, dwk: array<byte>, id: Identity)
    returns (r: Result<array<byte>>)
    requires dwk !in mem.buffers
    modifies mem, dwk
    ensures match UnlockWithWrappingKey(p, b, old(dwk[..]), id)
            case Ok(vaultKey) => r.Ok? && r.value[..] == vaultKey && fresh(r.value)
            case Err(e) => r == Err(e)
    ensures AllZero(dwk[..]) && LeftWiped(mem)
  {
    // try
    if !ExpectationsOk(id) {
      r := Err(Protocol);
    } else {
      r := OpenDeviceEnvelopes(mem, p, b, dwk, id);
    }
    // finally
    Zeroize(dwk);
  }
}
