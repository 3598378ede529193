/** The menu navigation state machine of the handheld controller, as values:
    the menu tree, the navigation state (current menu, stack of saved menus,
    selection, pending button press, last encoder position, published
    messages) and the transition each operation makes. */
module MenuModel {

  /** The 32-bit `int` of the target. */
  type Int32 = x: int | -0x8000_0000 <= x < 0x8000_0000

  /** `wateringDevices[]`: the irrigation zones the controller commands. */
  const WateringDevices: seq<string> := ["Front Lawn", "Back Garden"]

  /** The `std::function<void()>` a menu item carries, as a tag. */
  datatype Action =
    | NoAction                  // an empty std::function
    | GoBack
    | BuildRiego
    | BuildDevice(device: int)
    | Start(device: int)
    | Delay(device: int)
    | ShowBle
    | ShowHa
    | WifiMessage
    | MqttMessage

  datatype MenuItem = MenuItem(caption: string, subitems: seq<MenuItem>, action: Action)

  /** One `MQTTClient::publish(topic, payload)` call. */
  datatype Message = Message(topic: string, payload: string)

  /** The globals `currentMenu`, `menuStack`, `selectedIndex`, `buttonPressed`
      and `lastPos`, with the messages published so far. */
  datatype Nav = Nav(
    current: seq<MenuItem>,
    stack: seq<seq<MenuItem>>,
    selected: int,
    pressed: bool,
    lastPos: Int32,
    log: seq<Message>)

  /** The poll loop's inputs: the button interrupt, or one `update` call that
      reads the encoder at `pos`. */
  datatype Event = Press | Poll(pos: Int32)

  const BackItem := MenuItem("< Back", [], GoBack)

  /** The root's children as `buildMenu` assembles them: "BLE Devices",
      "Settings" and "HA", every one of which has subitems, with "Riego"
      under "HA" holding only "< Back". */
  function RootMenu(): (menu: seq<MenuItem>)
    ensures MenuOk(menu)
    ensures |menu| == 3 && menu[0].caption == "BLE Devices" && menu[1].caption == "Settings" && menu[2].caption == "HA"
    ensures forall item | item in menu :: item.subitems != []
    ensures menu[2].subitems[0].caption == "Riego" && menu[2].subitems[0].subitems == [BackItem]
  {
    assert ItemOk(BackItem);
    assert ItemOk(MenuItem("Riego", [BackItem], BuildRiego));
    var haRiego := MenuItem("Riego", [BackItem], BuildRiego);
    var haMenu := MenuItem("HA", [haRiego, BackItem], ShowHa);
    var wifi := MenuItem("WiFi", [BackItem], WifiMessage);
    var mqtt := MenuItem("MQTT", [BackItem], MqttMessage);
    var settings := MenuItem("Settings", [wifi, mqtt, BackItem], NoAction);
    var ble := MenuItem("BLE Devices", [BackItem], ShowBle);
    [ble, settings, haMenu]
  }

  /** The globals' initial values. */
  const Initial := Nav([], [], 0, false, -1, [])

  /** The state after `buildMenu`. */
  function Booted(): (s: Nav)
    ensures Valid(s)
  {
    Initial.(current := RootMenu())
  }

  predicate ActionOk(a: Action) {
    match a
    case BuildDevice(i) => 0 <= i < |WateringDevices|
    case Start(i) => 0 <= i < |WateringDevices|
    case Delay(i) => 0 <= i < |WateringDevices|
    case _ => true
  }

  /** Every action in the item's subtree indexes an existing watering device. */
  predicate ItemOk(item: MenuItem) {
    ActionOk(item.action) && forall c | c in item.subitems :: ItemOk(c)
  }

  predicate MenuOk(menu: seq<MenuItem>) {
    menu != [] && forall item | item in menu :: ItemOk(item)
  }

  /** The navigation invariant: the current menu and every saved menu are
      non-empty, and the selection indexes the current menu. */
  predicate Valid(s: Nav) {
    MenuOk(s.current) && 0 <= s.selected < |s.current| && forall m | m in s.stack :: MenuOk(m)
  }

  /** Push the current menu and show `menu` from its first entry. */
  function Descend(s: Nav, menu: seq<MenuItem>): (r: Nav)
    ensures Valid(s) && MenuOk(menu) ==> Valid(r)
    ensures r.stack == s.stack + [s.current] && r.current == menu && r.selected == 0
    ensures r.log == s.log
  {
    s.(current := menu, stack := s.stack + [s.current], selected := 0)
  }

  /** `goBack`: pop the top saved menu and select its first entry; no-op at the root. */
  function Back(s: Nav): (r: Nav)
    ensures Valid(s) ==> Valid(r)
    ensures s.stack == [] ==> r == s
    ensures s.stack != [] ==>
      r.stack == s.stack[..|s.stack| - 1] && r.selected == 0 && r.current == s.stack[|s.stack| - 1]
    ensures r.log == s.log
  {
    if s.stack == [] then s
    else s.(current := s.stack[|s.stack| - 1], stack := s.stack[..|s.stack| - 1], selected := 0)
  }

  /** The MQTT topic a watering command for `device` goes to: the device's
      name between the `ha/riego/` prefix and the `/set` suffix. */
  function Topic(device: int): (t: string)
    requires 0 <= device < |WateringDevices|
    ensures |t| == 9 + |WateringDevices[device]| + 4
    ensures t[..9] == "ha/riego/" && t[|t| - 4..] == "/set"
    ensures t[9..|t| - 4] == WateringDevices[device]
  {
    "ha/riego/" + WateringDevices[device] + "/set"
  }

  /** `startWatering` / `delayWatering`: publish one command, then go back. */
  function Command(s: Nav, device: int, payload: string): (r: Nav)
    requires 0 <= device < |WateringDevices|
    ensures Valid(s) ==> Valid(r)
  {
    Back(s.(log := s.log + [Message(Topic(device), payload)]))
  }

  /** The entries `buildRiegoMenu` generates, one per watering device. */
  function DeviceEntries(): seq<MenuItem> {
    seq(|WateringDevices|, i requires 0 <= i < |WateringDevices| => MenuItem(WateringDevices[i], [], BuildDevice(i)))
  }

  /** The menu `buildRiegoMenu` installs: one entry per watering device, in
      order, then "< Back". */
  function RiegoMenu(): (menu: seq<MenuItem>)
    ensures MenuOk(menu)
    ensures |menu| == |WateringDevices| + 1 && menu[|WateringDevices|] == BackItem
    ensures forall i :: 0 <= i < |WateringDevices| ==>
      menu[i].caption == WateringDevices[i] && menu[i].subitems == [] && menu[i].action == BuildDevice(i)
  {
    DeviceEntries() + [BackItem]
  }

  /** The menu `buildWateringDeviceMenu(device)` installs: three leaves,
      "Start" and "Delay 1 day" for the device, then "< Back". It is well
      formed exactly when the device exists. */
  function DeviceMenu(device: int): (menu: seq<MenuItem>)
    ensures |menu| == 3 && menu[2] == BackItem
    ensures forall item | item in menu :: item.subitems == []
    ensures menu[0].action == Start(device) && menu[1].action == Delay(device)
    ensures MenuOk(menu) <==> 0 <= device < |WateringDevices|
  {
    var menu := [MenuItem("Start", [], Start(device)), MenuItem("Delay 1 day", [], Delay(device)), BackItem];
    assert menu[0] in menu && ItemOk(BackItem);
    menu
  }

  /** Invoking an item's action. */
  function Perform(s: Nav, a: Action): (r: Nav)
    requires ActionOk(a)
    ensures Valid(s) ==> Valid(r)
  {
    match a
    case NoAction => s
    case GoBack => Back(s)
    case BuildRiego => Descend(s, RiegoMenu())
    case BuildDevice(i) => Descend(s, DeviceMenu(i))
    case Start(i) => Command(s, i, "start")
    case Delay(i) => Command(s, i, "delay")
    case ShowBle => Back(s)
    case ShowHa => s
    case WifiMessage => Back(s)
    case MqttMessage => Back(s)
  }

  /** `selectItem`: an item with subitems is descended into, whatever its
      action; otherwise its action runs. */
  function Select(s: Nav): (r: Nav)
    requires Valid(s)
    ensures Valid(r)
  {
    var item := s.current[s.selected];
    assert item in s.current;
    if item.subitems != [] then Descend(s, item.subitems) else Perform(s, item.action)
  }

  /** `newPos % currentMenu.size()`: the `int` operand is converted to the
      32-bit unsigned `size_t` before the remainder is taken. */
  function PositionIndex(pos: Int32, n: int): (i: int)
    requires n > 0
    ensures 0 <= i < n
    ensures 0 <= pos ==> i == pos % n
  {
    (pos % 0x1_0000_0000) % n
  }

  /** The encoder half of `update`: a new position moves the selection. */
  function Turn(s: Nav, pos: Int32): (r: Nav)
    requires Valid(s)
    ensures Valid(r)
    ensures r.current == s.current && r.stack == s.stack && r.pressed == s.pressed && r.log == s.log
    ensures r.lastPos == pos
    ensures pos == s.lastPos ==> r.selected == s.selected
  {
    if pos != s.lastPos then s.(lastPos := pos, selected := PositionIndex(pos, |s.current|)) else s
  }

  /** `MenuSystem::update`: read the encoder, then consume a pending press. */
  function Update(s: Nav, pos: Int32): (r: Nav)
    requires Valid(s)
    ensures Valid(r)
    ensures !r.pressed
  {
    var t := Turn(s, pos);
    if t.pressed then Select(t.(pressed := false)) else t
  }

  /** `handleButton`: the interrupt only raises the flag. */
  function Pressed(s: Nav): (r: Nav)
    ensures r.pressed
    ensures r.current == s.current && r.stack == s.stack && r.selected == s.selected
    ensures r.lastPos == s.lastPos && r.log == s.log
    ensures Valid(s) ==> Valid(r)
  {
    s.(pressed := true)
  }

  function Step(s: Nav, e: Event): (r: Nav)
    requires Valid(s)
    ensures Valid(r)
  {
    match e
    case Press => Pressed(s)
    case Poll(pos) => Update(s, pos)
  }

  function Run(s: Nav, events: seq<Event>): (r: Nav)
    requires Valid(s)
    ensures Valid(r)
    decreases |events|
  {
    if events == [] then s else Run(Step(s, events[0]), events[1..])
  }

  /** A press followed by a poll selects exactly once and clears the flag;
      without a press a poll never selects. */
  lemma PressSelectsOnce(s: Nav, pos: Int32)
    requires Valid(s) && !s.pressed
    ensures Update(Pressed(s), pos) == Select(Turn(s, pos))
    ensures Update(s, pos) == Turn(s, pos)
  {
  }

  /** Descending and then going back restores the current menu and the stack
      exactly; the selection is reset to 0, not restored. */
  lemma DescendThenBack(s: Nav, menu: seq<MenuItem>)
    requires Valid(s) && MenuOk(menu)
    ensures Back(Descend(s, menu)) == s.(selected := 0)
  {
  }

  /** Selecting an item that has subitems descends into them and never runs its
      action; selecting a leaf runs its action, and a leaf with no action
      changes nothing. */
  lemma SelectPolicy(s: Nav)
    requires Valid(s)
    ensures var item := s.current[s.selected];
      && ActionOk(item.action)
      && (item.subitems != [] ==>
           Select(s).current == item.subitems && Select(s).stack == s.stack + [s.current]
           && Select(s).selected == 0 && Select(s).log == s.log)
      && (item.subitems == [] ==> Select(s) == Perform(s, item.action))
      && (item.subitems == [] && item.action == NoAction ==> Select(s) == s)
  {
    assert s.current[s.selected] in s.current;
  }

  /** Each of `buildRiegoMenu`, `buildWateringDeviceMenu` and a descent by
      `selectItem` is undone exactly (up to the selection) by one `goBack`. */
  lemma BuildersUndoneByBack(s: Nav, device: int)
    requires Valid(s) && 0 <= device < |WateringDevices|
    ensures Back(Perform(s, BuildRiego)) == s.(selected := 0)
    ensures Back(Perform(s, BuildDevice(device))) == s.(selected := 0)
    ensures Perform(s, BuildDevice(device)).current == DeviceMenu(device)
    ensures |DeviceMenu(device)| == 3
  {
    DescendThenBack(s, RiegoMenu());
    DescendThenBack(s, DeviceMenu(device));
  }

  /** `startWatering` and `delayWatering` append exactly one message, to the
      device's command topic, then go back. */
  lemma CommandsPublishOnce(s: Nav, device: int)
    requires Valid(s) && 0 <= device < |WateringDevices|
    ensures Perform(s, Start(device)).log == s.log + [Message("ha/riego/" + WateringDevices[device] + "/set", "start")]
    ensures Perform(s, Delay(device)).log == s.log + [Message("ha/riego/" + WateringDevices[device] + "/set", "delay")]
    ensures Perform(s, Start(device)).current == Back(s).current
    ensures Perform(s, Start(device)).stack == Back(s).stack
    ensures Perform(s, Delay(device)).current == Back(s).current
    ensures Perform(s, Delay(device)).stack == Back(s).stack
  {
  }

  /** Distinct watering devices are commanded on distinct topics. */
  lemma TopicsDistinct(i: int, j: int)
    requires 0 <= i < |WateringDevices| && 0 <= j < |WateringDevices|
    ensures Topic(i) == Topic(j) <==> i == j
  {
    if Topic(i) == Topic(j) {
      assert WateringDevices[i] == Topic(i)[9..|Topic(i)| - 4];
      assert WateringDevices[j] == Topic(j)[9..|Topic(j)| - 4];
    }
  }

  /** The encoder conversion differs from a mathematical modulo for negative
      positions: one step left of 0 on the three-entry root menu selects entry
      0, not entry 2. */
  lemma NegativePositionWraps()
    ensures PositionIndex(-1, 3) == 0 && (-1) % 3 == 2
    ensures PositionIndex(-1, 2) == 1
  {
  }

  /** Items of the tree `buildMenu` builds: each either has subitems of the same
      kind or is a leaf whose action is `goBack`. */
  predicate StaticItem(item: MenuItem) {
    if item.subitems == [] then item.action == GoBack
    else forall c | c in item.subitems :: StaticItem(c)
  }

  predicate StaticNav(s: Nav) {
    && (forall item | item in s.current :: StaticItem(item))
    && (forall m | m in s.stack :: forall item | item in m :: StaticItem(item))
  }

  /** Every event keeps all menus within the built tree and publishes nothing. */
  lemma StepKeepsStatic(s: Nav, e: Event)
    requires Valid(s) && StaticNav(s)
    ensures StaticNav(Step(s, e)) && Step(s, e).log == s.log
  {
    if e.Poll? {
      var t := Turn(s, e.pos);
      if t.pressed {
        var u := t.(pressed := false);
        var item := u.current[u.selected];
        assert item in u.current;
        if item.subitems != [] {
          assert forall c | c in item.subitems :: StaticItem(c);
        } else {
          assert item.action == GoBack;
          assert Step(s, e) == Back(u);
          if u.stack != [] {
            var rest := u.stack[..|u.stack| - 1];
            assert u.stack == s.stack && u.stack[|u.stack| - 1] in s.stack;
            forall m | m in rest ensures forall x | x in m :: StaticItem(x) {
              assert m in s.stack;
            }
          }
        }
      }
    }
  }

  lemma {:induction false} RunKeepsStatic(s: Nav, events: seq<Event>)
    requires Valid(s) && StaticNav(s)
    ensures StaticNav(Run(s, events)) && Run(s, events).log == s.log
    decreases |events|
  {
    if events != [] {
      StepKeepsStatic(s, events[0]);
      RunKeepsStatic(Step(s, events[0]), events[1..]);
    }
  }

  /** Because subitems win over actions, the "Riego" entry never runs
      `buildRiegoMenu`: from the built tree no sequence of presses and encoder
      turns reaches a watering command, so nothing is ever published. */
  lemma NothingEverPublished(events: seq<Event>)
    ensures Run(Booted(), events).log == []
  {
    assert StaticItem(BackItem);
    assert StaticItem(MenuItem("Riego", [BackItem], BuildRiego));
    RunKeepsStatic(Booted(), events);
  }

  /** Turning to "HA", pressing, and pressing again on "Riego" shows only the
      "< Back" entry of its placeholder submenu. */
  lemma RiegoShowsBackOnly()
    ensures Run(Booted(), [Poll(2), Press, Poll(2), Press, Poll(2)]).current == [BackItem]
    ensures |Run(Booted(), [Poll(2), Press, Poll(2), Press, Poll(2)]).stack| == 2
  {
  }
}
