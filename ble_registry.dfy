/** The device registry shared by both BLE list components: a vector of
    (MAC, RSSI) records, upserted by MAC and kept in non-increasing RSSI
    order, a clamped scroll offset and the window of records a frame lists. */
module BleRegistry {

  /** `BLEDeviceInfo`: one advertiser, identified by its MAC string. */
  datatype DeviceInfo = DeviceInfo(mac: string, rssi: int)

  /** One printed line of a frame. */
  datatype Row = Heading | NoDevicesFound | Entry(device: DeviceInfo)

  /** The `font::Font *` a component draws with; `NullFont` is `nullptr`. */
  datatype FontRef = NullFont | FontRef(id: nat)

  /** What `draw` does to the display buffer. */
  datatype Frame = Untouched | Drawn(rows: seq<Row>)

  predicate UniqueMacs(s: seq<DeviceInfo>) {
    forall i, j :: 0 <= i < j < |s| ==> s[i].mac != s[j].mac
  }

  /** The order the comparator `a.rssi > b.rssi` of `std::sort` produces. */
  predicate SortedByRssi(s: seq<DeviceInfo>) {
    forall i, j :: 0 <= i < j < |s| ==> s[i].rssi >= s[j].rssi
  }

  /** `t` is one of the outcomes `std::sort` may give for `s`: tie order is not fixed. */
  predicate SortedPermutation(t: seq<DeviceInfo>, s: seq<DeviceInfo>) {
    SortedByRssi(t) && multiset(t) == multiset(s)
  }

  function Macs(s: seq<DeviceInfo>): set<string> {
    set d | d in s :: d.mac
  }

  /** The position `std::find_if` returns for `mac`: the first match, or the end. */
  function IndexOfMac(s: seq<DeviceInfo>, mac: string): (k: nat)
    ensures k <= |s|
    ensures k < |s| ==> s[k].mac == mac
    ensures forall j :: 0 <= j < k ==> s[j].mac != mac
  {
    if s == [] then 0
    else if s[0].mac == mac then 0
    else 1 + IndexOfMac(s[1..], mac)
  }

  /** The record vector after the find-then-push_back-or-overwrite step, before
      the sort: an unknown MAC is appended; otherwise the records keep their
      place and MAC, the first one with the MAC takes the new RSSI, and no other
      RSSI changes. */
  function Upsert(s: seq<DeviceInfo>, mac: string, rssi: int): (r: seq<DeviceInfo>)
    ensures mac !in Macs(s) ==> r == s + [DeviceInfo(mac, rssi)]
    ensures mac in Macs(s) ==>
      && |r| == |s| && DeviceInfo(mac, rssi) in r
      && forall i :: 0 <= i < |s| ==> r[i].mac == s[i].mac && (r[i].rssi == s[i].rssi || s[i].mac == mac)
  {
    var k := IndexOfMac(s, mac);
    if k == |s| then s + [DeviceInfo(mac, rssi)]
    else
      var r := s[k := s[k].(rssi := rssi)];
      assert r[k] in r;
      r
  }

  /** Putting a record in front of a sorted vector none of whose records beat it
      keeps the vector sorted. */
  lemma PrependSorted(a: DeviceInfo, t: seq<DeviceInfo>)
    requires SortedByRssi(t)
    requires forall j :: 0 <= j < |t| ==> t[j].rssi <= a.rssi
    ensures SortedByRssi([a] + t)
  {
    forall i, j | 0 <= i < j < |[a] + t| ensures ([a] + t)[i].rssi >= ([a] + t)[j].rssi {
      if i == 0 {
        assert ([a] + t)[j] == t[j - 1];
      }
    }
  }

  /** Inserts `d` into a sorted vector in front of the first record it does not beat. */
  function Insert(d: DeviceInfo, s: seq<DeviceInfo>): (r: seq<DeviceInfo>)
    requires SortedByRssi(s)
    ensures SortedPermutation(r, s + [d])
  {
    if s == [] then [d]
    else if d.rssi >= s[0].rssi then
      PrependSorted(d, s);
      [d] + s
    else
      var t := Insert(d, s[1..]);
      InsertBound(d, s, t);
      PrependSorted(s[0], t);
      assert s + [d] == [s[0]] + (s[1..] + [d]);
      [s[0]] + t
  }

  /** What the recursive step of `Insert` needs: the head of a sorted vector
      beats every record of a permutation of its tail plus a weaker record. */
  lemma InsertBound(d: DeviceInfo, s: seq<DeviceInfo>, t: seq<DeviceInfo>)
    requires s != [] && SortedByRssi(s) && d.rssi < s[0].rssi
    requires multiset(t) == multiset(s[1..] + [d])
    ensures forall j :: 0 <= j < |t| ==> t[j].rssi <= s[0].rssi
  {
    forall j | 0 <= j < |t| ensures t[j].rssi <= s[0].rssi {
      var x := t[j];
      assert x in multiset(t);
      assert x in multiset(s[1..] + [d]);
      assert x in s[1..] + [d];
      var k :| 0 <= k < |s[1..] + [d]| && (s[1..] + [d])[k] == x;
      if k < |s| - 1 {
        assert x == s[k + 1];
      }
    }
  }

  /** A stand-in for `std::sort` with the comparator `a.rssi > b.rssi`. */
  function SortByRssi(s: seq<DeviceInfo>): (r: seq<DeviceInfo>)
    ensures SortedPermutation(r, s)
  {
    if s == [] then []
    else
      assert s == s[..|s| - 1] + [s[|s| - 1]];
      Insert(s[|s| - 1], SortByRssi(s[..|s| - 1]))
  }

  /** `std::max((int)devices_.size() - 1, 0)`: the index of the last record,
      or 0 for an empty list. */
  function MaxScroll(n: int): (m: int)
    ensures m >= 0
    ensures n > 0 ==> m == n - 1
    ensures n <= 0 ==> m == 0
  {
    if n - 1 > 0 then n - 1 else 0
  }

  /** The offset `scroll` stores when the sum `pos` is clamped for `n` records. */
  function ClampScroll(pos: int, n: int): (r: int)
    ensures 0 <= r <= MaxScroll(n)
    ensures 0 <= pos <= MaxScroll(n) ==> r == pos
    ensures pos < 0 ==> r == 0
    ensures pos > MaxScroll(n) ==> r == MaxScroll(n)
  {
    var r := if pos < 0 then 0 else pos;
    if r > MaxScroll(n) then MaxScroll(n) else r
  }

  function Min(a: int, b: int): int {
    if a <= b then a else b
  }

  /** The counted loop of `draw`: from `scrollPos`, one row per record while
      records remain and fewer than `maxShow` rows are shown. */
  method ListRows(devices: seq<DeviceInfo>, scrollPos: int, maxShow: int) returns (rows: seq<Row>)
    requires 0 <= scrollPos <= |devices|
    requires 0 <= maxShow
    ensures |rows| == Min(|devices| - scrollPos, maxShow)
    ensures forall j :: 0 <= j < |rows| ==> rows[j] == Entry(devices[scrollPos + j])
  {
    rows := [];
    var i, shown := scrollPos, 0;
    while i < |devices| && shown < maxShow
      invariant scrollPos <= i <= |devices|
      invariant shown == i - scrollPos <= maxShow
      invariant |rows| == shown
      invariant forall j :: 0 <= j < |rows| ==> rows[j] == Entry(devices[scrollPos + j])
    {
      rows := rows + [Entry(devices[i])];
      i, shown := i + 1, shown + 1;
    }
  }

  /** Uniqueness of MACs is the same as having as many MACs as records. */
  lemma {:induction false} MacsCount(s: seq<DeviceInfo>)
    ensures |Macs(s)| <= |s|
    ensures UniqueMacs(s) <==> |Macs(s)| == |s|
  {
    if s != [] {
      var t := s[1..];
      MacsCount(t);
      assert Macs(s) == {s[0].mac} + Macs(t) by {
        forall m ensures m in Macs(s) <==> m in {s[0].mac} + Macs(t) {
          if m in Macs(s) {
            var d :| d in s && d.mac == m;
            assert d == s[0] || d in t;
          }
        }
      }
      if s[0].mac in Macs(t) {
        var d :| d in t && d.mac == s[0].mac;
        var j :| 0 <= j < |t| && t[j] == d;
        assert s[0].mac == s[j + 1].mac;
      } else {
        assert UniqueMacs(s) <==> UniqueMacs(t) by {
          if UniqueMacs(t) {
            forall j | 0 < j < |s| ensures s[0].mac != s[j].mac {
              assert s[j] in t;
            }
          }
        }
      }
    }
  }

  /** Reordering the records, as the sort does, keeps the MACs unique. */
  lemma PermutationKeepsUnique(t: seq<DeviceInfo>, s: seq<DeviceInfo>)
    requires multiset(t) == multiset(s)
    requires UniqueMacs(s)
    ensures UniqueMacs(t)
    ensures Macs(t) == Macs(s)
  {
    assert forall d :: d in t <==> d in s by {
      forall d ensures d in t <==> d in s {
        assert d in t <==> d in multiset(t);
        assert d in s <==> d in multiset(s);
      }
    }
    assert Macs(t) == Macs(s);
    assert |t| == |multiset(t)| == |multiset(s)| == |s|;
    MacsCount(s);
    MacsCount(t);
  }

  /** The upsert step alone: a new MAC is appended, a known one has only its RSSI
      overwritten, and MACs stay unique. */
  lemma UpsertEffect(s: seq<DeviceInfo>, mac: string, rssi: int)
    requires UniqueMacs(s)
    ensures UniqueMacs(Upsert(s, mac, rssi))
    ensures |Upsert(s, mac, rssi)| == if mac in Macs(s) then |s| else |s| + 1
    ensures forall d :: d in Upsert(s, mac, rssi) <==> d == DeviceInfo(mac, rssi) || (d in s && d.mac != mac)
  {
  }

  /** One observation as a whole: after the upsert and the sort, the records are
      the observed one plus every earlier record of another MAC, with unique MACs,
      in non-increasing RSSI order, and the count grows by one exactly for a new MAC. */
  lemma ObservationEffect(s: seq<DeviceInfo>, mac: string, rssi: int, t: seq<DeviceInfo>)
    requires UniqueMacs(s)
    requires SortedPermutation(t, Upsert(s, mac, rssi))
    ensures UniqueMacs(t) && SortedByRssi(t)
    ensures |t| == if mac in Macs(s) then |s| else |s| + 1
    ensures forall d :: d in t <==> d == DeviceInfo(mac, rssi) || (d in s && d.mac != mac)
  {
    var u := Upsert(s, mac, rssi);
    UpsertEffect(s, mac, rssi);
    PermutationKeepsUnique(t, u);
    assert |t| == |multiset(t)| == |multiset(u)| == |u|;
    forall d ensures d in t <==> d in u {
      assert d in t <==> d in multiset(t);
      assert d in u <==> d in multiset(u);
    }
  }

  /** Observing AA:BB at -70, CC:DD at -50, then AA:BB again at -40 leaves
      exactly the updated AA:BB record in front of CC:DD, whatever order the
      sort picks among equal signals. */
  lemma ResortAfterUpdate(t1: seq<DeviceInfo>, t2: seq<DeviceInfo>, t3: seq<DeviceInfo>)
    requires SortedPermutation(t1, Upsert([], "AA:BB", -70))
    requires SortedPermutation(t2, Upsert(t1, "CC:DD", -50))
    requires SortedPermutation(t3, Upsert(t2, "AA:BB", -40))
    ensures t3 == [DeviceInfo("AA:BB", -40), DeviceInfo("CC:DD", -50)]
  {
    var a, c := DeviceInfo("AA:BB", -40), DeviceInfo("CC:DD", -50);
    ObservationEffect([], "AA:BB", -70, t1);
    ObservationEffect(t1, "CC:DD", -50, t2);
    assert "AA:BB" in Macs(t2) by {
      assert DeviceInfo("AA:BB", -70) in t2;
    }
    ObservationEffect(t2, "AA:BB", -40, t3);
    assert |t3| == 2;
    assert a in t3 && c in t3;
    assert forall d | d in t3 :: d == a || d == c;
    assert t3[0] in t3 && t3[1] in t3;
  }
}
