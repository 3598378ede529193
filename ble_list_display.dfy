/** The ESPHome external component `CustomBLEListDisplay`: it collects BLE
    advertisers as they are found, keeps them ranked by signal strength and
    draws a scrollable list of up to seven of them. */
module BleListDisplay {
  import opened BleRegistry

  /** Rows a frame lists at most (`max_show`). */
  const MaxShow := 7

  class CustomBleListDisplay {
    var font: FontRef
    var devices: seq<DeviceInfo>
    var scrollPos: int

    /** The invariant every member keeps: MACs are unique and the offset
        points into the list (or is 0 for an empty list). */
    ghost predicate Valid()
      reads this
    {
      UniqueMacs(devices) && 0 <= scrollPos <= MaxScroll(|devices|)
    }

    /** The member initialisers: no font, no records, offset 0. */
    constructor ()
      ensures Valid()
      ensures font == NullFont && devices == [] && scrollPos == 0
    {
      font := NullFont;
      devices := [];
      scrollPos := 0;
    }

    method SetFont(f: FontRef)
      modifies this`font
      ensures font == f
      ensures unchanged(this`devices) && unchanged(this`scrollPos)
    {
      font := f;
    }

    /** `device_count()`: a read-only query. */
    function DeviceCount(): (n: nat)
      reads this
      ensures n == |devices|
    {
      |devices|
    }

    /** `on_device_found`: upsert the observation by MAC, then re-sort by RSSI. */
    method OnDeviceFound(mac: string, rssi: int)
      requires Valid()
      modifies this`devices
      ensures Valid()
      ensures SortedPermutation(devices, Upsert(old(devices), mac, rssi))
      ensures DeviceCount() == if mac in Macs(old(devices)) then old(DeviceCount()) else old(DeviceCount()) + 1
      ensures forall d :: d in devices <==> d == DeviceInfo(mac, rssi) || (d in old(devices) && d.mac != mac)
    {
      var k := IndexOfMac(devices, mac);
      if k == |devices| {
        devices := devices + [DeviceInfo(mac, rssi)];
      } else {
        devices := devices[k := devices[k].(rssi := rssi)];
      }
      devices := SortByRssi(devices);
      ObservationEffect(old(devices), mac, rssi, devices);
    }

    /** `scroll`: move the offset by `delta`, clamped to the list. */
    method Scroll(delta: int)
      requires Valid()
      modifies this`scrollPos
      ensures Valid()
      ensures scrollPos == ClampScroll(old(scrollPos) + delta, |devices|)
    {
      var maxScroll := MaxScroll(|devices|);
      scrollPos := scrollPos + delta;
      if scrollPos < 0 {
        scrollPos := 0;
      }
      if scrollPos > maxScroll {
        scrollPos := maxScroll;
      }
    }

    /** `draw`: nothing without a font; otherwise a heading, then either the
        "No devices found" line or the records from the offset on, at most seven. */
    method Draw() returns (frame: Frame)
      requires Valid()
      ensures font == NullFont ==> frame == Untouched
      ensures font != NullFont && devices == [] ==> frame == Drawn([Heading, NoDevicesFound])
      ensures font != NullFont && devices != [] ==>
        && frame.Drawn?
        && |frame.rows| == 1 + Min(|devices| - scrollPos, MaxShow)
        && frame.rows[0] == Heading
        && forall j :: 1 <= j < |frame.rows| ==> frame.rows[j] == Entry(devices[scrollPos + j - 1])
    {
      if font == NullFont {
        return Untouched;
      }
      if devices == [] {
        frame := Drawn([Heading, NoDevicesFound]);
      } else {
        var rows := ListRows(devices, scrollPos, MaxShow);
        frame := Drawn([Heading] + rows);
      }
    }
  }
}
