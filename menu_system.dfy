/** The menu globals and the functions that update them in place. Every
    method is proved to move the state exactly as the matching transition of
    `MenuModel` does, so the lemmas there hold of this code. */
module MenuRuntime {
  import opened MenuModel

  class MenuSystem {
    var currentMenu: seq<MenuItem>
    var menuStack: seq<seq<MenuItem>>
    var selectedIndex: int
    var buttonPressed: bool
    var lastPos: Int32
    /** The messages handed to `MQTTClient::publish`, oldest first. */
    var published: seq<Message>

    function State(): Nav
      reads this
    {
      Nav(currentMenu, menuStack, selectedIndex, buttonPressed, lastPos, published)
    }

    /** The globals before `MenuSystem::begin`. */
    constructor ()
      ensures State() == Initial
    {
      currentMenu, menuStack, selectedIndex := [], [], 0;
      buttonPressed, lastPos, published := false, -1, [];
    }

    /** `buildMenu`: install the root's children as the current menu. */
    method BuildMenu()
      modifies this
      ensures State() == old(State()).(current := RootMenu())
      ensures old(State()) == Initial ==> State() == Booted() && Valid(State())
    {
      var backOption := MenuItem("< Back", [], Action.GoBack);
      var haRiego := MenuItem("Riego", [backOption], BuildRiego);
      var haMenu := MenuItem("HA", [haRiego, backOption], ShowHa);
      var wifiSettings := MenuItem("WiFi", [backOption], WifiMessage);
      var mqttSettings := MenuItem("MQTT", [backOption], MqttMessage);
      var settings := MenuItem("Settings", [wifiSettings, mqttSettings, backOption], NoAction);
      var bleStatus := MenuItem("BLE Devices", [backOption], ShowBle);
      var root := MenuItem("Main Menu", [bleStatus, settings, haMenu], NoAction);
      currentMenu := root.subitems;
    }

    method Publish(topic: string, payload: string)
      modifies this`published
      ensures published == old(published) + [Message(topic, payload)]
    {
      published := published + [Message(topic, payload)];
    }

    method GoBack()
      modifies this
      ensures State() == Back(old(State()))
    {
      if menuStack != [] {
        currentMenu := menuStack[|menuStack| - 1];
        menuStack := menuStack[..|menuStack| - 1];
        selectedIndex := 0;
      }
    }

    method StartWatering(deviceIdx: int)
      requires 0 <= deviceIdx < |WateringDevices|
      modifies this
      ensures State() == Command(old(State()), deviceIdx, "start")
    {
      var topic := "ha/riego/" + WateringDevices[deviceIdx] + "/set";
      Publish(topic, "start");
      GoBack();
    }

    method DelayWatering(deviceIdx: int)
      requires 0 <= deviceIdx < |WateringDevices|
      modifies this
      ensures State() == Command(old(State()), deviceIdx, "delay")
    {
      var topic := "ha/riego/" + WateringDevices[deviceIdx] + "/set";
      Publish(topic, "delay");
      GoBack();
    }

    method BuildWateringDeviceMenu(deviceIdx: int)
      modifies this
      ensures State() == Descend(old(State()), DeviceMenu(deviceIdx))
    {
      var backOption := MenuItem("< Back", [], Action.GoBack);
      var startOption := MenuItem("Start", [], Start(deviceIdx));
      var delayOption := MenuItem("Delay 1 day", [], Delay(deviceIdx));
      var deviceMenu := [startOption, delayOption, backOption];
      menuStack := menuStack + [currentMenu];
      currentMenu := deviceMenu;
      selectedIndex := 0;
    }

    method BuildRiegoMenu()
      modifies this
      ensures State() == Descend(old(State()), RiegoMenu())
    {
      var backOption := MenuItem("< Back", [], Action.GoBack);
      var riegoMenu: seq<MenuItem> := [];
      var i := 0;
      while i < |WateringDevices|
        invariant 0 <= i <= |WateringDevices|
        invariant riegoMenu == DeviceEntries()[..i]
      {
        riegoMenu := riegoMenu + [MenuItem(WateringDevices[i], [], BuildDevice(i))];
        i := i + 1;
      }
      riegoMenu := riegoMenu + [backOption];
      menuStack := menuStack + [currentMenu];
      currentMenu := riegoMenu;
      selectedIndex := 0;
    }

    /** Calling the item's `std::function`. */
    method RunAction(action: Action)
      requires ActionOk(action)
      modifies this
      ensures State() == Perform(old(State()), action)
    {
      match action
      case NoAction =>
      case GoBack => GoBack();
      case BuildRiego => BuildRiegoMenu();
      case BuildDevice(i) => BuildWateringDeviceMenu(i);
      case Start(i) => StartWatering(i);
      case Delay(i) => DelayWatering(i);
      case ShowBle => GoBack();
      case ShowHa =>
      case WifiMessage => GoBack();
      case MqttMessage => GoBack();
    }

    method SelectItem()
      requires Valid(State())
      modifies this
      ensures State() == Select(old(State()))
    {
      var item := currentMenu[selectedIndex];
      assert item in currentMenu;
      if item.subitems != [] {
        menuStack := menuStack + [currentMenu];
        currentMenu := item.subitems;
        selectedIndex := 0;
      } else {
        RunAction(item.action);
      }
    }

    /** The button interrupt handler. */
    method HandleButton()
      modifies this`buttonPressed
      ensures State() == Pressed(old(State()))
    {
      buttonPressed := true;
    }

    method Update(newPos: Int32)
      requires Valid(State())
      modifies this
      ensures State() == MenuModel.Update(old(State()), newPos)
    {
      if newPos != lastPos {
        lastPos := newPos;
        selectedIndex := (newPos % 0x1_0000_0000) % |currentMenu|;
      }
      if buttonPressed {
        buttonPressed := false;
        SelectItem();
      }
    }
  }
}
