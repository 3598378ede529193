/** The older inline `CustomBLEListDisplay` of the ESPHome configuration: the
    same registry fed by `on_ble_advertise`, drawing up to ten records and
    taking its font in the constructor. */
module BleListInline {
  import opened BleRegistry

  /** Rows a frame lists at most (`max_show`). */
  const MaxShow := 10

  class CustomBleListDisplay {
    const font: FontRef
    var devices: seq<DeviceInfo>
    var scrollPos: int

    /** MACs are unique and the offset points into the list (or is 0). */
    ghost predicate Valid()
      reads this
    {
      UniqueMacs(devices) && 0 <= scrollPos <= MaxScroll(|devices|)
    }

    /** The constructor stores the font and starts at offset 0 with no records. */
    constructor (font: FontRef)
      ensures Valid()
      ensures this.font == font && devices == [] && scrollPos == 0
    {
      this.font := font;
      devices := [];
      scrollPos := 0;
    }

    /** `device_count()`: a read-only query. */
    function DeviceCount(): (n: nat)
      reads this
      ensures n == |devices|
    {
      |devices|
    }

    /** `on_ble_advertise`: upsert the advertisement by MAC, then re-sort by RSSI. */
    method OnBleAdvertise(mac: string, rssi: int)
      requires Valid()
      modifies this`devices
      ensures Valid()
      ensures SortedPermutation(devices, Upsert(old(devices), mac, rssi))
      ensures old(DeviceCount()) <= DeviceCount() <= old(DeviceCount()) + 1
      ensures forall d :: d in devices <==> d == DeviceInfo(mac, rssi) || (d in old(devices) && d.mac != mac)
    {
      var k := IndexOfMac(devices, mac);
      if k == |devices| {
        devices := devices + [DeviceInfo(mac, rssi)];
      } else {
        devices := devices[k := devices[k].(rssi := rssi)];
      }
      devices := SortByRssi(devices);
      ObservationEffect(old(devices), mac, rssi, devices);
    }

    /** `scroll`: move the offset by `delta`, clamped to the list. */
    method Scroll(delta: int)
      requires Valid()
      modifies this`scrollPos
      ensures Valid()
      ensures scrollPos == ClampScroll(old(scrollPos) + delta, |devices|)
    {
      var maxScroll := MaxScroll(|devices|);
      scrollPos := scrollPos + delta;
      if scrollPos < 0 {
        scrollPos := 0;
      }
      if scrollPos > maxScroll {
        scrollPos := maxScroll;
      }
    }

    /** `draw`: a heading, then either the "No devices found" line or the
        records from the offset on, at most ten. */
    method Draw() returns (rows: seq<Row>)
      requires Valid()
      ensures devices == [] ==> rows == [Heading, NoDevicesFound]
      ensures devices != [] ==>
        && |rows| == 1 + Min(|devices| - scrollPos, MaxShow)
        && rows[0] == Heading
        && forall j :: 1 <= j < |rows| ==> rows[j] == Entry(devices[scrollPos + j - 1])
    {
      if devices == [] {
        rows := [Heading, NoDevicesFound];
      } else {
        var shown := ListRows(devices, scrollPos, MaxShow);
        rows := [Heading] + shown;
      }
    }
  }
}
