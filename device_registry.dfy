/**
 * Login admission and the per-user device list (src/services/userDeviceService.ts).
 *
 * The device list is a JSON array stored on the user row; the service loads the user,
 * changes the list and saves it, so the user is a class whose `devices` field the
 * methods reassign. The specification functions below say what each operation makes of
 * the list; the methods are proved against them. The clock, the `MAX_ACTIVE_DEVICES`
 * value and SHA-256 are parameters.
 */
module UserDeviceService {
  import opened Wrappers
  import opened JsStrings

  const DEVICE_ID_MAX_LENGTH: nat := 190
  const DEVICE_NAME_MAX_LENGTH: nat := 255
  const USER_AGENT_MAX_LENGTH: nat := 512
  const IP_MAX_LENGTH: nat := 45
  const DEFAULT_MAX_ACTIVE_DEVICES: int := 5

  /** A hexadecimal SHA-256 digest: 64 characters (which characters is not used). */
  type HexDigest = s: string | |s| == 64
    witness "0000000000000000000000000000000000000000000000000000000000000000"

  /** One entry of `user.devices` (`UserDevice`); `lastSeen` in milliseconds. */
  datatype UserDevice = UserDevice(
    deviceId: string,
    deviceName: Option<string>,
    userAgent: Option<string>,
    ipAddress: Option<string>,
    isActive: bool,
    lastSeen: int)

  datatype DeviceLimitExceeded = DeviceLimitExceeded(limit: int) {
    function Message(): string {
      "Maximum of " + IntToString(limit)
        + " devices already signed in. Please sign out from another device before trying again."
    }
  }

  const USER_NOT_FOUND: string := "User not found"

  /** The user row as far as the service uses it. */
  class User {
    const id: string
    var devices: seq<UserDevice>

    constructor (id: string, devices: seq<UserDevice>)
      ensures this.id == id && this.devices == devices
    {
      this.id := id;
      this.devices := devices;
    }
  }

  /** `resolveMaxDevices()` given the value of `MAX_ACTIVE_DEVICES`. */
  function ResolveMaxDevices(raw: Option<string>): (n: int)
    ensures n >= 1
    ensures raw.None? || raw.value == "" ==> n == DEFAULT_MAX_ACTIVE_DEVICES
    ensures raw.Some? && raw.value != "" && ParseInt(raw.value).Some? && ParseInt(raw.value).value > 0 ==>
              n == ParseInt(raw.value).value
    ensures raw.Some? && (ParseInt(raw.value).None? || ParseInt(raw.value).value <= 0) ==>
              n == DEFAULT_MAX_ACTIVE_DEVICES
  {
    if raw.None? || raw.value == "" then DEFAULT_MAX_ACTIVE_DEVICES
    else
      var parsed := ParseInt(raw.value);
      if parsed.None? || parsed.value <= 0 then DEFAULT_MAX_ACTIVE_DEVICES
      else parsed.value
  }

  /** A positive integer written in decimal is taken as the cap. */
  lemma ResolveMaxDevicesOfDecimal(n: int)
    requires n > 0
    ensures ResolveMaxDevices(Some(IntToString(n))) == n
  {
    ParseIntOfIntToString(n);
  }

  /** `truncate(value, limit)`: no value for a missing or empty string, else a prefix. */
  function Truncate(value: Option<string>, limit: nat): (r: Option<string>)
    ensures r.None? <==> value.None? || value.value == "" || limit == 0
    ensures r.Some? ==> value.Some? && |r.value| <= limit && |r.value| <= |value.value|
                        && r.value == value.value[..|r.value|]
    ensures r.Some? && |value.value| <= limit ==> r.value == value.value
  {
    if value.None? || value.value == "" then None
    else
      var s := value.value;
      var cut := if |s| > limit then s[..limit] else s;
      if cut == "" then None else Some(cut)
  }

  /**
   * `deriveDeviceId`: the trimmed caller-supplied id cut to 190 characters or, when there
   * is none, the hex SHA-256 of `userAgent|ip` (user agent defaulting to "unknown").
   */
  function DeriveDeviceId(providedDeviceId: Option<string>, userAgent: Option<string>,
                          ipAddress: Option<string>, sha256Hex: string -> HexDigest): (id: string)
    ensures 1 <= |id| <= DEVICE_ID_MAX_LENGTH
    ensures providedDeviceId.Some? && !IsBlank(providedDeviceId.value) ==>
              |id| == Min(|Trim(providedDeviceId.value)|, DEVICE_ID_MAX_LENGTH)
              && id == Trim(providedDeviceId.value)[..|id|]
    ensures (providedDeviceId.None? || IsBlank(providedDeviceId.value)) ==>
              id == sha256Hex(Trim(userAgent.GetOr("unknown")) + "|" + Trim(ipAddress.GetOr("")))
  {
    var cleaned := if providedDeviceId.Some? then Some(Trim(providedDeviceId.value)) else None;
    TrimEmptyIffBlank(providedDeviceId.GetOr(""));
    if cleaned.Some? && cleaned.value != "" then
      SliceTo(cleaned.value, DEVICE_ID_MAX_LENGTH)
    else
      var fingerprint := Trim(userAgent.GetOr("unknown")) + "|" + Trim(ipAddress.GetOr(""));
      var digest := sha256Hex(fingerprint);
      SliceTo(digest, DEVICE_ID_MAX_LENGTH)
  }

  function Min(a: int, b: int): int { if a < b then a else b }

  /** `s.slice(0, end)`. */
  function SliceTo(s: string, end: nat): (r: string)
    ensures |r| == Min(|s|, end) && r == s[..|r|]
  {
    if |s| <= end then s else s[..end]
  }

  /** Index of the first device with `deviceId` (`findIndex`), if any. */
  function IndexOfDevice(devices: seq<UserDevice>, deviceId: string): (r: Option<nat>)
    ensures r.None? <==> forall k :: 0 <= k < |devices| ==> devices[k].deviceId != deviceId
    ensures r.Some? ==> r.value < |devices| && devices[r.value].deviceId == deviceId
                        && forall k :: 0 <= k < r.value ==> devices[k].deviceId != deviceId
  {
    if devices == [] then None
    else if devices[0].deviceId == deviceId then Some(0)
    else
      var rest := IndexOfDevice(devices[1..], deviceId);
      if rest.None? then None else Some(rest.value + 1)
  }

  predicate HasDevice(devices: seq<UserDevice>, deviceId: string) {
    exists k :: 0 <= k < |devices| && devices[k].deviceId == deviceId
  }

  /** Number of active entries (`devices.filter(d => d.isActive).length`). */
  function ActiveCount(devices: seq<UserDevice>): (n: nat)
    ensures n <= |devices|
  {
    if devices == [] then 0
    else ActiveCount(devices[..|devices| - 1]) + (if devices[|devices| - 1].isActive then 1 else 0)
  }

  /** No two entries share a device id. */
  predicate UniqueIds(devices: seq<UserDevice>) {
    forall i, j :: 0 <= i < j < |devices| ==> devices[i].deviceId != devices[j].deviceId
  }

  /**
   * The decision of `ensureDeviceCanLogin` on a found user's list: a listed device is
   * returned, whatever its state; an unlisted one is refused once `maxDevices` entries
   * are active; otherwise there is nothing to return.
   */
  function Admission(devices: seq<UserDevice>, deviceId: string, maxDevices: int)
    : (r: Result<Option<UserDevice>, DeviceLimitExceeded>)
    ensures HasDevice(devices, deviceId) ==>
              r.Success? && r.value.Some? && r.value.value.deviceId == deviceId
              && r.value.value == devices[IndexOfDevice(devices, deviceId).value]
    ensures !HasDevice(devices, deviceId) ==>
              (r.Failure? <==> ActiveCount(devices) >= maxDevices)
              && (r.Failure? ==> r.error == DeviceLimitExceeded(maxDevices))
              && (r.Success? ==> r.value.None?)
  {
    var existing := IndexOfDevice(devices, deviceId);
    if existing.Some? then Success(Some(devices[existing.value]))
    else if ActiveCount(devices) >= maxDevices then Failure(DeviceLimitExceeded(maxDevices))
    else Success(None)
  }

  /** The entry `recordSuccessfulLogin` appends for an unknown device. */
  function NewDevice(deviceId: string, deviceName: Option<string>, userAgent: Option<string>,
                     ipAddress: Option<string>, now: int): UserDevice
  {
    UserDevice(deviceId, Truncate(deviceName, DEVICE_NAME_MAX_LENGTH), Truncate(userAgent, USER_AGENT_MAX_LENGTH),
               Truncate(ipAddress, IP_MAX_LENGTH), true, now)
  }

  /** The entry a known device becomes: the old name is kept only when none is supplied. */
  function RefreshedDevice(device: UserDevice, deviceName: Option<string>, userAgent: Option<string>,
                           ipAddress: Option<string>, now: int): UserDevice
  {
    device.(deviceName := Truncate(if deviceName.Some? then deviceName else device.deviceName, DEVICE_NAME_MAX_LENGTH),
            userAgent := Truncate(userAgent, USER_AGENT_MAX_LENGTH),
            ipAddress := Truncate(ipAddress, IP_MAX_LENGTH),
            isActive := true,
            lastSeen := now)
  }

  /** The list after `recordSuccessfulLogin`: append an unknown device, refresh a known one. */
  function AfterLogin(devices: seq<UserDevice>, deviceId: string, deviceName: Option<string>,
                      userAgent: Option<string>, ipAddress: Option<string>, now: int): (r: seq<UserDevice>)
    ensures !HasDevice(devices, deviceId) ==>
              |r| == |devices| + 1 && r[..|devices|] == devices
              && r[|devices|].deviceId == deviceId && r[|devices|].isActive && r[|devices|].lastSeen == now
              && r[|devices|].deviceName == Truncate(deviceName, DEVICE_NAME_MAX_LENGTH)
              && r[|devices|].userAgent == Truncate(userAgent, USER_AGENT_MAX_LENGTH)
              && r[|devices|].ipAddress == Truncate(ipAddress, IP_MAX_LENGTH)
    ensures HasDevice(devices, deviceId) ==>
              var i := IndexOfDevice(devices, deviceId).value;
              && |r| == |devices|
              && r[i].deviceId == deviceId && r[i].isActive && r[i].lastSeen == now
              && (deviceName.Some? ==> r[i].deviceName == Truncate(deviceName, DEVICE_NAME_MAX_LENGTH))
              && (deviceName.None? ==> r[i].deviceName == Truncate(devices[i].deviceName, DEVICE_NAME_MAX_LENGTH))
              && r[i].userAgent == Truncate(userAgent, USER_AGENT_MAX_LENGTH)
              && r[i].ipAddress == Truncate(ipAddress, IP_MAX_LENGTH)
              && forall k :: 0 <= k < |devices| && k != i ==> r[k] == devices[k]
  {
    var existing := IndexOfDevice(devices, deviceId);
    if existing.None? then devices + [NewDevice(deviceId, deviceName, userAgent, ipAddress, now)]
    else devices[existing.value := RefreshedDevice(devices[existing.value], deviceName, userAgent, ipAddress, now)]
  }

  /** After a login the device is found at its old place, or last when it was new. */
  lemma AfterLoginIndex(devices: seq<UserDevice>, deviceId: string, deviceName: Option<string>,
                        userAgent: Option<string>, ipAddress: Option<string>, now: int)
    ensures var after := AfterLogin(devices, deviceId, deviceName, userAgent, ipAddress, now);
            IndexOfDevice(after, deviceId)
              == if HasDevice(devices, deviceId) then IndexOfDevice(devices, deviceId) else Some(|devices|)
  {
    var after := AfterLogin(devices, deviceId, deviceName, userAgent, ipAddress, now);
    var expected := if HasDevice(devices, deviceId) then IndexOfDevice(devices, deviceId).value else |devices|;
    assert after[expected].deviceId == deviceId;
    var found := IndexOfDevice(after, deviceId);
    assert found.Some?;
  }

  /** The list after `recordLogout`: a known device is marked inactive; nothing else changes. */
  function AfterLogout(devices: seq<UserDevice>, deviceId: string, now: int): (r: seq<UserDevice>)
    ensures !HasDevice(devices, deviceId) ==> r == devices
    ensures HasDevice(devices, deviceId) ==>
              var i := IndexOfDevice(devices, deviceId).value;
              && |r| == |devices|
              && r[i] == devices[i].(isActive := false, lastSeen := now)
              && forall k :: 0 <= k < |devices| && k != i ==> r[k] == devices[k]
  {
    var existing := IndexOfDevice(devices, deviceId);
    if existing.None? then devices
    else devices[existing.value := devices[existing.value].(isActive := false, lastSeen := now)]
  }

  /** The list after `removeDevice`: every entry with `deviceId` dropped, order kept. */
  function WithoutDevice(devices: seq<UserDevice>, deviceId: string): (r: seq<UserDevice>)
    ensures |r| <= |devices|
    ensures forall x :: x in r <==> x in devices && x.deviceId != deviceId
    ensures |r| == |devices| <==> !HasDevice(devices, deviceId)
    ensures !HasDevice(devices, deviceId) ==> r == devices
  {
    if devices == [] then []
    else
      var rest := WithoutDevice(devices[1..], deviceId);
      assert HasDevice(devices, deviceId) <==> devices[0].deviceId == deviceId || HasDevice(devices[1..], deviceId) by {
        if HasDevice(devices[1..], deviceId) {
          var k :| 0 <= k < |devices| - 1 && devices[1..][k].deviceId == deviceId;
          assert devices[k + 1].deviceId == deviceId;
        }
        if HasDevice(devices, deviceId) && devices[0].deviceId != deviceId {
          var k :| 0 <= k < |devices| && devices[k].deviceId == deviceId;
          assert devices[1..][k - 1].deviceId == deviceId;
        }
      }
      if devices[0].deviceId == deviceId then rest else [devices[0]] + rest
  }

  /** Removal works entry by entry, so the kept entries stay in their original order. */
  lemma {:induction false} WithoutDeviceAppend(a: seq<UserDevice>, b: seq<UserDevice>, deviceId: string)
    ensures WithoutDevice(a + b, deviceId) == WithoutDevice(a, deviceId) + WithoutDevice(b, deviceId)
  {
    if a == [] {
      assert a + b == b;
    } else {
      assert (a + b)[0] == a[0] && (a + b)[1..] == a[1..] + b;
      WithoutDeviceAppend(a[1..], b, deviceId);
    }
  }


  function Deactivated(device: UserDevice, now: int): UserDevice {
    if device.isActive then device.(isActive := false, lastSeen := now) else device
  }

  /** The list after `deactivateAllDevices`: active entries switched off, others kept. */
  function AllDeactivated(devices: seq<UserDevice>, now: int): (r: seq<UserDevice>)
    ensures |r| == |devices|
    ensures forall k :: 0 <= k < |r| ==> r[k] == Deactivated(devices[k], now)
  {
    seq(|devices|, k requires 0 <= k < |devices| => Deactivated(devices[k], now))
  }

  // ---------------------------------------------------------------------------
  // Properties of the specification functions

  lemma {:induction false} ActiveCountAppend(devices: seq<UserDevice>, d: UserDevice)
    ensures ActiveCount(devices + [d]) == ActiveCount(devices) + (if d.isActive then 1 else 0)
  {
    assert (devices + [d])[..|devices|] == devices;
  }

  lemma {:induction false} ActiveCountAllActive(devices: seq<UserDevice>)
    requires forall k :: 0 <= k < |devices| ==> devices[k].isActive
    ensures ActiveCount(devices) == |devices|
  {
    if devices != [] {
      ActiveCountAllActive(devices[..|devices| - 1]);
    }
  }

  /** Replacing one entry changes the active count by the change in that entry only. */
  lemma {:induction false} ActiveCountUpdate(devices: seq<UserDevice>, i: nat, d: UserDevice)
    requires i < |devices|
    ensures ActiveCount(devices[i := d]) ==
              ActiveCount(devices) - (if devices[i].isActive then 1 else 0) + (if d.isActive then 1 else 0)
    decreases |devices|
  {
    var last := |devices| - 1;
    if i == last {
      assert devices[i := d][..last] == devices[..last];
    } else {
      ActiveCountUpdate(devices[..last], i, d);
      assert devices[i := d][..last] == devices[..last][i := d];
    }
  }

  /**
   * Admission keeps the cap for new devices: a device admitted without being listed
   * brings the active count to at most `maxDevices`.
   */
  lemma AdmittedNewDeviceRespectsCap(devices: seq<UserDevice>, deviceId: string, maxDevices: int,
                                     deviceName: Option<string>, userAgent: Option<string>,
                                     ipAddress: Option<string>, now: int)
    requires Admission(devices, deviceId, maxDevices) == Success(None)
    ensures ActiveCount(AfterLogin(devices, deviceId, deviceName, userAgent, ipAddress, now)) <= maxDevices
  {
    ActiveCountAppend(devices, NewDevice(deviceId, deviceName, userAgent, ipAddress, now));
  }

  /** How a login moves the active count: up by one unless the device was already active. */
  lemma AfterLoginActiveCount(devices: seq<UserDevice>, deviceId: string, deviceName: Option<string>,
                              userAgent: Option<string>, ipAddress: Option<string>, now: int)
    ensures ActiveCount(AfterLogin(devices, deviceId, deviceName, userAgent, ipAddress, now)) ==
              ActiveCount(devices)
              + (if HasDevice(devices, deviceId) && devices[IndexOfDevice(devices, deviceId).value].isActive
                 then 0 else 1)
  {
    var existing := IndexOfDevice(devices, deviceId);
    if existing.None? {
      ActiveCountAppend(devices, NewDevice(deviceId, deviceName, userAgent, ipAddress, now));
    } else {
      var i := existing.value;
      ActiveCountUpdate(devices, i, RefreshedDevice(devices[i], deviceName, userAgent, ipAddress, now));
    }
  }

  /**
   * A listed but inactive device is admitted whatever the active count, so logging it in
   * again can leave more devices active than the cap: here six against a cap of five.
   */
  lemma ReactivationCanExceedCap()
    ensures var on := UserDevice("a", None, None, None, true, 0);
            var devices := [on.(deviceId := "a"), on.(deviceId := "b"), on.(deviceId := "c"),
                            on.(deviceId := "d"), on.(deviceId := "e"),
                            on.(deviceId := "f", isActive := false)];
            && ActiveCount(devices) == 5
            && Admission(devices, "f", 5).Success?
            && ActiveCount(AfterLogin(devices, "f", None, None, None, 1)) == 6
  {
    var on := UserDevice("a", None, None, None, true, 0);
    var devices := [on.(deviceId := "a"), on.(deviceId := "b"), on.(deviceId := "c"),
                    on.(deviceId := "d"), on.(deviceId := "e"),
                    on.(deviceId := "f", isActive := false)];
    assert devices[5].deviceId == "f";
    ActiveCountAllActive(devices[..5]);
    assert devices[..6][..5] == devices[..5];
    AfterLoginActiveCount(devices, "f", None, None, None, 1);
  }

  /** Logging in never creates a second entry for a device id. */
  lemma AfterLoginKeepsIdsUnique(devices: seq<UserDevice>, deviceId: string, deviceName: Option<string>,
                                 userAgent: Option<string>, ipAddress: Option<string>, now: int)
    requires UniqueIds(devices)
    ensures UniqueIds(AfterLogin(devices, deviceId, deviceName, userAgent, ipAddress, now))
  {
  }

  /** A second login from the same device, after a logout or not, adds no entry. */
  lemma LoginAgainAddsNothing(devices: seq<UserDevice>, deviceId: string, name1: Option<string>,
                              name2: Option<string>, userAgent: Option<string>, ipAddress: Option<string>,
                              t1: int, t2: int, t3: int)
    ensures var once := AfterLogin(devices, deviceId, name1, userAgent, ipAddress, t1);
            && |AfterLogin(once, deviceId, name2, userAgent, ipAddress, t2)| == |once|
            && |AfterLogin(AfterLogout(once, deviceId, t2), deviceId, name2, userAgent, ipAddress, t3)| == |once|
  {
    var once := AfterLogin(devices, deviceId, name1, userAgent, ipAddress, t1);
    assert HasDevice(once, deviceId) by {
      if !HasDevice(devices, deviceId) {
        assert once[|devices|].deviceId == deviceId;
      } else {
        assert once[IndexOfDevice(devices, deviceId).value].deviceId == deviceId;
      }
    }
    var out := AfterLogout(once, deviceId, t2);
    assert out[IndexOfDevice(once, deviceId).value].deviceId == deviceId;
  }

  /** Logging out keeps the ids unique and switches off at most one active entry. */
  lemma AfterLogoutActiveCount(devices: seq<UserDevice>, deviceId: string, now: int)
    ensures UniqueIds(devices) ==> UniqueIds(AfterLogout(devices, deviceId, now))
    ensures ActiveCount(AfterLogout(devices, deviceId, now)) ==
              ActiveCount(devices)
              - (if HasDevice(devices, deviceId) && devices[IndexOfDevice(devices, deviceId).value].isActive
                 then 1 else 0)
  {
    var existing := IndexOfDevice(devices, deviceId);
    if existing.Some? {
      var i := existing.value;
      ActiveCountUpdate(devices, i, devices[i].(isActive := false, lastSeen := now));
    }
  }

  /** After deactivating all devices none is active; the ids are those of before. */
  lemma {:induction false} AllDeactivatedNoneActive(devices: seq<UserDevice>, now: int)
    ensures ActiveCount(AllDeactivated(devices, now)) == 0
    ensures forall k :: 0 <= k < |devices| ==> AllDeactivated(devices, now)[k].deviceId == devices[k].deviceId
  {
    if devices != [] {
      var init := devices[..|devices| - 1];
      AllDeactivatedNoneActive(init, now);
      assert AllDeactivated(devices, now)[..|devices| - 1] == AllDeactivated(init, now);
    }
  }

  /** Removing a device leaves exactly the entries with other ids. */
  lemma {:induction false} WithoutDeviceCount(devices: seq<UserDevice>, deviceId: string)
    ensures |WithoutDevice(devices, deviceId)| + CountOf(devices, deviceId) == |devices|
    ensures forall k :: 0 <= k < |WithoutDevice(devices, deviceId)| ==>
              WithoutDevice(devices, deviceId)[k].deviceId != deviceId
  {
    if devices != [] {
      WithoutDeviceCount(devices[1..], deviceId);
    }
  }

  function CountOf(devices: seq<UserDevice>, deviceId: string): nat {
    if devices == [] then 0
    else (if devices[0].deviceId == deviceId then 1 else 0) + CountOf(devices[1..], deviceId)
  }

  // ---------------------------------------------------------------------------
  // The service operations on a loaded user (`null` when no user has the id)

  /** `ensureDeviceCanLogin`: reads the list and changes nothing. */
  method EnsureDeviceCanLogin(user: User?, deviceId: string, maxDevicesEnv: Option<string>)
    returns (r: Result<Option<UserDevice>, DeviceLimitExceeded>)
    ensures user == null ==> r == Success(None)
    ensures user != null ==> r == Admission(user.devices, deviceId, ResolveMaxDevices(maxDevicesEnv))
  {
    if user == null {
      return Success(None);
    }
    var devices := user.devices;
    var existing := IndexOfDevice(devices, deviceId);
    if existing.Some? {
      return Success(Some(devices[existing.value]));
    }
    var activeCount := ActiveCount(devices);
    var maxDevices := ResolveMaxDevices(maxDevicesEnv);
    if activeCount >= maxDevices {
      return Failure(DeviceLimitExceeded(maxDevices));
    }
    return Success(None);
  }

  /** `recordSuccessfulLogin`: a missing user is an error. */
  method RecordSuccessfulLogin(user: User?, deviceId: string, deviceName: Option<string>,
                               userAgent: Option<string>, ipAddress: Option<string>, now: int)
    returns (r: Result<UserDevice, string>)
    modifies user
    ensures user == null ==> r == Failure(USER_NOT_FOUND)
    ensures user != null ==>
              && user.devices == AfterLogin(old(user.devices), deviceId, deviceName, userAgent, ipAddress, now)
              && r.Success? && IndexOfDevice(user.devices, deviceId).Some?
              && r.value == user.devices[IndexOfDevice(user.devices, deviceId).value]
              && r.value.deviceId == deviceId && r.value.isActive && r.value.lastSeen == now
  {
    if user == null {
      return Failure(USER_NOT_FOUND);
    }
    var devices := user.devices;
    var existingIndex := IndexOfDevice(devices, deviceId);
    var device: UserDevice;
    if existingIndex.None? {
      device := NewDevice(deviceId, deviceName, userAgent, ipAddress, now);
      devices := devices + [device];
    } else {
      device := RefreshedDevice(devices[existingIndex.value], deviceName, userAgent, ipAddress, now);
      devices := devices[existingIndex.value := device];
    }
    AfterLoginIndex(user.devices, deviceId, deviceName, userAgent, ipAddress, now);
    user.devices := devices;
    return Success(device);
  }

  /** `recordLogout`: `None` for a missing user or an unlisted device, which change nothing. */
  method RecordLogout(user: User?, deviceId: string, now: int) returns (r: Option<UserDevice>)
    modifies user
    ensures user == null ==> r.None?
    ensures user != null ==> user.devices == AfterLogout(old(user.devices), deviceId, now)
    ensures user != null ==> (r.Some? <==> HasDevice(old(user.devices), deviceId))
    ensures r.Some? ==> r.value.deviceId == deviceId && !r.value.isActive && r.value.lastSeen == now
  {
    if user == null {
      return None;
    }
    var devices := user.devices;
    var deviceIndex := IndexOfDevice(devices, deviceId);
    if deviceIndex.None? {
      return None;
    }
    var device := devices[deviceIndex.value].(isActive := false, lastSeen := now);
    user.devices := devices[deviceIndex.value := device];
    return Some(device);
  }

  /** `getActiveDeviceCount`: 0 for a missing user. */
  method GetActiveDeviceCount(user: User?) returns (n: nat)
    ensures user == null ==> n == 0
    ensures user != null ==> n == ActiveCount(user.devices) && n <= |user.devices|
  {
    if user == null {
      return 0;
    }
    return ActiveCount(user.devices);
  }

  /**
   * `listUserDevices`: the stored list, or an empty one for a missing user; the active
   * count reported beside it is taken over this same list.
   */
  method ListUserDevices(user: User?) returns (devices: seq<UserDevice>)
    ensures user == null ==> devices == []
    ensures user != null ==> devices == user.devices
    ensures ActiveCount(devices) <= |devices|
  {
    if user == null {
      return [];
    }
    return user.devices;
  }

  /** `removeDevice`: `false` when the user or the device is missing, and nothing changes then. */
  method RemoveDevice(user: User?, deviceId: string) returns (removed: bool)
    modifies user
    ensures removed <==> user != null && HasDevice(old(user.devices), deviceId)
    ensures user != null ==> user.devices == WithoutDevice(old(user.devices), deviceId)
  {
    if user == null {
      return false;
    }
    var devices := user.devices;
    var filteredDevices := WithoutDevice(devices, deviceId);
    if |filteredDevices| == |devices| {
      return false;
    }
    user.devices := filteredDevices;
    return true;
  }

  /**
   * `deactivateAllDevices`: switches every active entry off, stamping it with `now`, and
   * returns how many were active.
   */
  method DeactivateAllDevices(user: User?, now: int) returns (deactivatedCount: nat)
    modifies user
    ensures user == null ==> deactivatedCount == 0
    ensures user != null ==> deactivatedCount == ActiveCount(old(user.devices))
    ensures user != null ==> user.devices == AllDeactivated(old(user.devices), now)
  {
    if user == null {
      return 0;
    }
    var devices := user.devices;
    var updated: seq<UserDevice> := [];
    deactivatedCount := 0;
    var i := 0;
    while i < |devices|
      invariant 0 <= i <= |devices|
      invariant |updated| == i
      invariant forall k :: 0 <= k < i ==> updated[k] == Deactivated(devices[k], now)
      invariant deactivatedCount == ActiveCount(devices[..i])
    {
      var device := devices[i];
      assert devices[..i + 1][..i] == devices[..i];
      if device.isActive {
        deactivatedCount := deactivatedCount + 1;
        updated := updated + [device.(isActive := false, lastSeen := now)];
      } else {
        updated := updated + [device];
      }
      i := i + 1;
    }
    assert devices[..i] == devices;
    user.devices := updated;
  }
}
