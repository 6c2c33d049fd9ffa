/**
 * The station's Wi-Fi event handler and the `wifi_connected` flag it keeps:
 * the start of the station asks the driver to connect, an address from DHCP
 * marks the station connected, and a disconnection marks it disconnected and
 * asks the driver to connect again.
 */
module WifiEvents {

  /** `int32_t`, the type of an event id. */
  type Int32 = x: int | -0x8000_0000 <= x < 0x8000_0000

  /** `esp_event_base_t`: the family an event belongs to. */
  datatype EventBase = WifiEvent | IpEvent | OtherBase

  /** Ids within the WIFI_EVENT family (`wifi_event_t`). */
  const WIFI_EVENT_STA_START: Int32 := 2
  const WIFI_EVENT_STA_DISCONNECTED: Int32 := 5

  /** Id within the IP_EVENT family (`ip_event_t`). */
  const IP_EVENT_STA_GOT_IP: Int32 := 0

  /** An event as the event loop hands it to the handler; its payload is not modelled. */
  datatype Event = Event(base: EventBase, id: Int32)

  predicate IsStaStart(e: Event) {
    e.base == WifiEvent && e.id == WIFI_EVENT_STA_START
  }

  predicate IsGotIp(e: Event) {
    e.base == IpEvent && e.id == IP_EVENT_STA_GOT_IP
  }

  predicate IsDisconnected(e: Event) {
    e.base == WifiEvent && e.id == WIFI_EVENT_STA_DISCONNECTED
  }

  /** Whether the handler calls `esp_wifi_connect` for e. */
  predicate CallsConnect(e: Event) {
    IsStaStart(e) || IsDisconnected(e)
  }

  /**
   * The flag after the handler has run on e: set by an address, cleared by a
   * disconnection, left as it was by the start of the station and by every
   * other event (an id is only meaningful together with its family).
   */
  function NextConnected(connected: bool, e: Event): (c: bool)
    ensures IsGotIp(e) ==> c
    ensures IsDisconnected(e) ==> !c
    ensures !IsGotIp(e) && !IsDisconnected(e) ==> c == connected
  {
    if IsStaStart(e) then connected
    else if IsGotIp(e) then true
    else if IsDisconnected(e) then false
    else connected
  }

  /** The flag after the handler has run on each of `events` in turn, starting from `init`. */
  function ConnectedAfter(init: bool, events: seq<Event>): bool {
    if events == [] then init
    else NextConnected(ConnectedAfter(init, events[..|events| - 1]), events[|events| - 1])
  }

  /** Whether a disconnection comes after position i of `events`. */
  predicate DisconnectedAfter(events: seq<Event>, i: int) {
    exists j :: i < j < |events| && 0 <= j && IsDisconnected(events[j])
  }

  /**
   * After any sequence of events the station counts as connected exactly
   * when it got an address that no disconnection followed, or it started out
   * connected and no disconnection came at all.
   */
  lemma {:induction false} ConnectedAfterEvents(init: bool, events: seq<Event>)
    ensures ConnectedAfter(init, events) <==>
      (exists i :: 0 <= i < |events| && IsGotIp(events[i]) && !DisconnectedAfter(events, i))
      || (init && !DisconnectedAfter(events, -1))
  {
    if events != [] {
      var n := |events| - 1;
      var front, e := events[..n], events[n];
      ConnectedAfterEvents(init, front);
      forall i | -1 <= i < n
        ensures DisconnectedAfter(events, i) <==> DisconnectedAfter(front, i) || IsDisconnected(e)
      {
        if DisconnectedAfter(events, i) && !IsDisconnected(e) {
          var j :| i < j < |events| && 0 <= j && IsDisconnected(events[j]);
          assert front[j] == events[j];
        }
        if DisconnectedAfter(front, i) {
          var j :| i < j < |front| && 0 <= j && IsDisconnected(front[j]);
          assert events[j] == front[j];
        }
        if IsDisconnected(e) {
          assert IsDisconnected(events[n]);
        }
      }
      if IsGotIp(e) {
        assert !DisconnectedAfter(events, n);
      } else if !IsDisconnected(e) {
        if ConnectedAfter(init, events) && !(init && !DisconnectedAfter(events, -1)) {
          var i :| 0 <= i < n && IsGotIp(front[i]) && !DisconnectedAfter(front, i);
          assert events[i] == front[i];
        }
        if i :| 0 <= i < |events| && IsGotIp(events[i]) && !DisconnectedAfter(events, i) {
          assert i < n && front[i] == events[i];
        }
      } else {
        forall i | 0 <= i < n
          ensures DisconnectedAfter(events, i)
        {
        }
      }
    }
  }

  /** The handler's state: the `wifi_connected` flag and the calls it has made to the driver. */
  class WifiStation {
    /** `wifi_connected` */
    var connected: bool
    /** How many times the handler has called `esp_wifi_connect`. */
    var connectCalls: nat

    /** The flag's static initial value, before any event. */
    constructor()
      ensures !connected && connectCalls == 0
    {
      connected := false;
      connectCalls := 0;
    }

    /** `wifi_event_handler`, for one event. */
    method HandleEvent(base: EventBase, id: Int32)
      modifies this
      ensures connected == NextConnected(old(connected), Event(base, id))
      ensures connectCalls == old(connectCalls) + if CallsConnect(Event(base, id)) then 1 else 0
    {
      if base == WifiEvent && id == WIFI_EVENT_STA_START {
        connectCalls := connectCalls + 1;
      } else if base == IpEvent && id == IP_EVENT_STA_GOT_IP {
        connected := true;
      } else if base == WifiEvent && id == WIFI_EVENT_STA_DISCONNECTED {
        connectCalls := connectCalls + 1;
        connected := false;
      }
    }
  }
}
