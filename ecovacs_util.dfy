/** homeassistant/components/ecovacs/util.py: the entities an integration
    platform creates for the devices of an Ecovacs controller, and the client
    device id used to log in. The capability classes of the device library,
    `isinstance`, `slugify` and the entity constructor are not part of this
    model; they appear as type and function parameters. */
module EcovacsUtil {
  import opened Wrappers

  // ---------------------------------------------------------------------------
  // get_supported_entitites
  // ---------------------------------------------------------------------------

  /** A device of the controller, with its capability set (of type `K`);
      `H` stands for everything else about it. */
  datatype Device<H, K> = Device(handle: H, capabilities: K)

  /** An entity description: the capability-set class `T` it applies to, and
      `capability_fn`, which picks a capability (of type `C`) out of a
      capability set of that class. Like the Python callable, `capabilityFn`
      is only required to be defined on capability sets of that class. */
  datatype EntityDescription<T, !K, C> =
    EntityDescription(deviceCapabilities: T, capabilityFn: K --> Option<C>)

  /** `entity_class(device, capability, description)`. */
  datatype SupportedEntity<H, !K, T, C> =
    SupportedEntity(device: Device<H, K>, capability: C, description: EntityDescription<T, K, C>)

  /** `capability_fn` can be applied to every capability set that passes the
      description's `isinstance` check. */
  ghost predicate DefinedOnItsClass<T, K(!new), C>(isInstance: (K, T) -> bool, s: EntityDescription<T, K, C>)
  {
    forall k :: isInstance(k, s.deviceCapabilities) ==> s.capabilityFn.requires(k)
  }

  ghost predicate AllDefinedOnTheirClass<T, K(!new), C>(isInstance: (K, T) -> bool, descriptions: seq<EntityDescription<T, K, C>>)
  {
    forall j :: 0 <= j < |descriptions| ==> DefinedOnItsClass(isInstance, descriptions[j])
  }

  /** The entities one device contributes, in description order. The
      `isinstance` check comes first: `capability_fn` is applied only to
      capability sets that pass it. */
  function EntitiesOfDevice<H, K(!new), T, C>(
    d: Device<H, K>, descriptions: seq<EntityDescription<T, K, C>>, isInstance: (K, T) -> bool)
    : (r: seq<SupportedEntity<H, K, T, C>>)
    requires AllDefinedOnTheirClass(isInstance, descriptions)
    ensures |r| <= |descriptions|
    decreases |descriptions|
  {
    if descriptions == [] then []
    else
      var s := descriptions[0];
      var own :=
        if isInstance(d.capabilities, s.deviceCapabilities) then
          match s.capabilityFn(d.capabilities)
          case Some(c) => [SupportedEntity(d, c, s)]
          case None => []
        else [];
      own + EntitiesOfDevice(d, descriptions[1..], isInstance)
  }

  /** `get_supported_entitites`: devices in controller order on the outside,
      descriptions in tuple order on the inside. */
  function SupportedEntities<H, K(!new), T, C>(
    devices: seq<Device<H, K>>, descriptions: seq<EntityDescription<T, K, C>>, isInstance: (K, T) -> bool)
    : (r: seq<SupportedEntity<H, K, T, C>>)
    requires AllDefinedOnTheirClass(isInstance, descriptions)
    ensures |r| <= |devices| * |descriptions|
    ensures forall i :: 0 <= i < |r| ==>
              r[i].device in devices && r[i].description in descriptions &&
              isInstance(r[i].device.capabilities, r[i].description.deviceCapabilities) &&
              r[i].description.capabilityFn(r[i].device.capabilities) == Some(r[i].capability)
    decreases |devices|
  {
    if devices == [] then []
    else
      var row := EntitiesOfDevice(devices[0], descriptions, isInstance);
      var rest := SupportedEntities(devices[1..], descriptions, isInstance);
      RowEntitiesSupported(devices[0], descriptions, isInstance);
      assert |devices| * |descriptions| == |descriptions| + |devices[1..]| * |descriptions|;
      assert forall i :: 0 <= i < |row| ==> (row + rest)[i] == row[i];
      assert forall i :: |row| <= i < |row + rest| ==> (row + rest)[i] == rest[i - |row|];
      row + rest
  }

  /** Every entity of a device's row is built from that device, a description
      of the tuple, and the capability `capability_fn` returned for them. */
  lemma {:induction false} RowEntitiesSupported<H, K(!new), T, C>(
    d: Device<H, K>, descriptions: seq<EntityDescription<T, K, C>>, isInstance: (K, T) -> bool)
    requires AllDefinedOnTheirClass(isInstance, descriptions)
    ensures forall e :: e in EntitiesOfDevice(d, descriptions, isInstance) ==>
              e.device == d && e.description in descriptions &&
              isInstance(d.capabilities, e.description.deviceCapabilities) &&
              e.description.capabilityFn(d.capabilities) == Some(e.capability)
    decreases |descriptions|
  {
    if descriptions != [] {
      RowEntitiesSupported(d, descriptions[1..], isInstance);
    }
  }

  /** A device contributes the entity (d, c, s) exactly when s is one of the
      descriptions and the pair passes both checks with capability c. */
  lemma {:induction false} EntitiesOfDeviceMembership<H, K(!new), T, C>(
    d: Device<H, K>, descriptions: seq<EntityDescription<T, K, C>>, isInstance: (K, T) -> bool,
    s: EntityDescription<T, K, C>, c: C)
    requires AllDefinedOnTheirClass(isInstance, descriptions)
    ensures SupportedEntity(d, c, s) in EntitiesOfDevice(d, descriptions, isInstance) <==>
              s in descriptions && isInstance(d.capabilities, s.deviceCapabilities) &&
              s.capabilityFn(d.capabilities) == Some(c)
    decreases |descriptions|
  {
    if descriptions != [] {
      EntitiesOfDeviceMembership(d, descriptions[1..], isInstance, s, c);
      assert descriptions == [descriptions[0]] + descriptions[1..];
    }
  }

  /** A pair contributes an entity exactly when the device is one of the
      controller's, the description one of the tuple's, the `isinstance` check
      passes and `capability_fn` returns that capability. */
  lemma {:induction false} SupportedEntitiesMembership<H, K(!new), T, C>(
    devices: seq<Device<H, K>>, descriptions: seq<EntityDescription<T, K, C>>, isInstance: (K, T) -> bool,
    d: Device<H, K>, s: EntityDescription<T, K, C>, c: C)
    requires AllDefinedOnTheirClass(isInstance, descriptions)
    ensures SupportedEntity(d, c, s) in SupportedEntities(devices, descriptions, isInstance) <==>
              d in devices && s in descriptions && isInstance(d.capabilities, s.deviceCapabilities) &&
              s.capabilityFn(d.capabilities) == Some(c)
    decreases |devices|
  {
    if devices != [] {
      SupportedEntitiesMembership(devices[1..], descriptions, isInstance, d, s, c);
      EntitiesOfDeviceMembership(devices[0], descriptions, isInstance, s, c);
      RowEntitiesSupported(devices[0], descriptions, isInstance);
      assert devices == [devices[0]] + devices[1..];
    }
  }

  /** Devices are the outer loop: the entities of a concatenation of device
      lists are those of the first list followed by those of the second. */
  lemma {:induction false} SupportedEntitiesAppendDevices<H, K(!new), T, C>(
    d1: seq<Device<H, K>>, d2: seq<Device<H, K>>, descriptions: seq<EntityDescription<T, K, C>>,
    isInstance: (K, T) -> bool)
    requires AllDefinedOnTheirClass(isInstance, descriptions)
    ensures SupportedEntities(d1 + d2, descriptions, isInstance) ==
            SupportedEntities(d1, descriptions, isInstance) + SupportedEntities(d2, descriptions, isInstance)
    decreases |d1|
  {
    if d1 == [] {
      assert d1 + d2 == d2;
    } else {
      assert (d1 + d2)[0] == d1[0];
      assert (d1 + d2)[1..] == d1[1..] + d2;
      SupportedEntitiesAppendDevices(d1[1..], d2, descriptions, isInstance);
    }
  }

  /** Descriptions are the inner loop: for one device, the entities of a
      concatenation of description tuples are those of the first followed by
      those of the second. */
  lemma {:induction false} EntitiesOfDeviceAppendDescriptions<H, K(!new), T, C>(
    d: Device<H, K>, s1: seq<EntityDescription<T, K, C>>, s2: seq<EntityDescription<T, K, C>>,
    isInstance: (K, T) -> bool)
    requires AllDefinedOnTheirClass(isInstance, s1) && AllDefinedOnTheirClass(isInstance, s2)
    ensures AllDefinedOnTheirClass(isInstance, s1 + s2)
    ensures EntitiesOfDevice(d, s1 + s2, isInstance) ==
            EntitiesOfDevice(d, s1, isInstance) + EntitiesOfDevice(d, s2, isInstance)
    decreases |s1|
  {
    assert forall j :: 0 <= j < |s1 + s2| ==> (s1 + s2)[j] == if j < |s1| then s1[j] else s2[j - |s1|];
    if s1 == [] {
      assert s1 + s2 == s2;
    } else {
      assert (s1 + s2)[0] == s1[0];
      assert (s1 + s2)[1..] == s1[1..] + s2;
      EntitiesOfDeviceAppendDescriptions(d, s1[1..], s2, isInstance);
    }
  }

  /** One device and one description: one entity when both checks pass, none otherwise. */
  lemma SupportedEntitiesOfOnePair<H, K(!new), T, C>(
    d: Device<H, K>, s: EntityDescription<T, K, C>, isInstance: (K, T) -> bool)
    requires DefinedOnItsClass(isInstance, s)
    ensures AllDefinedOnTheirClass(isInstance, [s])
    ensures SupportedEntities([d], [s], isInstance) ==
            if isInstance(d.capabilities, s.deviceCapabilities) && s.capabilityFn(d.capabilities).Some?
            then [SupportedEntity(d, s.capabilityFn(d.capabilities).value, s)]
            else []
  {
    assert [d][1..] == [];
    assert [s][1..] == [];
  }

  // ---------------------------------------------------------------------------
  // get_client_device_id
  // ---------------------------------------------------------------------------

  const AsciiUppercase: string := "ABCDEFGHIJKLMNOPQRSTUVWXYZ"
  const Digits: string := "0123456789"

  /** `string.ascii_uppercase + string.digits`, the characters of a random id. */
  const IdAlphabet: string := AsciiUppercase + Digits

  predicate IsUpperOrDigit(c: char)
  {
    'A' <= c <= 'Z' || '0' <= c <= '9'
  }

  /** Every character of the alphabet is an uppercase ASCII letter or a digit. */
  lemma AlphabetIsUpperOrDigit(c: char)
    requires c in IdAlphabet
    ensures IsUpperOrDigit(c)
  {
    assert c in AsciiUppercase || c in Digits;
  }

  /** `get_client_device_id`. When self-hosted the id is `"HA-"` followed by
      the slug of the location name; otherwise it is eight characters each
      chosen (nondeterministically here, at random in the source) from the
      alphabet. */
  method ClientDeviceId(selfHosted: bool, locationName: string, slugify: string -> string)
    returns (id: string)
    ensures selfHosted ==> id == "HA-" + slugify(locationName)
    ensures selfHosted ==> |id| >= 3 && id[..3] == "HA-"
    ensures !selfHosted ==> |id| == 8
    ensures !selfHosted ==> forall i :: 0 <= i < |id| ==> id[i] in IdAlphabet && IsUpperOrDigit(id[i])
  {
    if selfHosted {
      return "HA-" + slugify(locationName);
    }
    id := "";
    for n := 0 to 8
      invariant |id| == n
      invariant forall i :: 0 <= i < |id| ==> id[i] in IdAlphabet && IsUpperOrDigit(id[i])
    {
      assert 'A' in IdAlphabet by {
        assert IdAlphabet[0] == 'A';
      }
      var c :| c in IdAlphabet;
      AlphabetIsUpperOrDigit(c);
      id := id + [c];
    }
  }
}
