/** The notification web socket of the web app
    (frontend/src/hooks/data/useWebSocket.jsx). Each holder keeps at most one
    socket: starting is a no-op while one is held, the socket's close event
    releases it, and each pushed notification becomes a toast that links to
    its service request. */
module PushChannel {
  import opened Common
  import opened TokenStorage
  import Text

  /** One WebSocket the holder created: its creation number and its URL. */
  datatype Socket = Socket(serial: nat, url: string)

  /** The `notification` object of a pushed frame (JSON parsing is not modelled). */
  datatype Pushed = Pushed(title: string, serviceRequestId: nat)

  /** The toast raised for a pushed notification: its title, how long it
      stays, and where its View action navigates. */
  datatype Toast = Toast(title: string, duration: nat, actionPath: string)

  const ToastDuration: nat := 4000

  /** How a template literal renders `${token}` for a stored or a missing token. */
  function TemplateText(v: Option<string>): (s: string)
    ensures v.Some? ==> s == v.value
    ensures v.None? ==> s == "null"
  {
    v.GetOr("null")
  }

  /** `${VITE_WS_URL}notifications/?token=${token}`. */
  function SocketUrl(wsBase: string, token: Option<string>): (u: string)
    ensures Text.StartsWith(u, wsBase + "notifications/?token=")
    ensures u[|wsBase| + 21..] == TemplateText(token)
  {
    wsBase + "notifications/?token=" + TemplateText(token)
  }

  function RequestPath(serviceRequestId: nat): string {
    "/requests/" + Text.NatToString(serviceRequestId)
  }

  /** The toast for a pushed notification. */
  function MessageToast(n: Pushed): (t: Toast)
    ensures t.title == n.title && t.duration == ToastDuration
    ensures t.actionPath == RequestPath(n.serviceRequestId)
  {
    Toast(n.title, ToastDuration, RequestPath(n.serviceRequestId))
  }

  /** Different service requests get different action paths, so the View
      action always opens the request the notification is about. */
  lemma {:induction false} RequestPathInjective(a: nat, b: nat)
    requires RequestPath(a) == RequestPath(b)
    ensures a == b
  {
    assert Text.NatToString(a) == RequestPath(a)[10..];
    assert Text.NatToString(b) == RequestPath(b)[10..];
    NatToStringInjective(a, b);
  }

  lemma {:induction false} NatToStringInjective(a: nat, b: nat)
    requires Text.NatToString(a) == Text.NatToString(b)
    ensures a == b
  {
    if a >= 10 && b >= 10 {
      var sa, sb := Text.NatToString(a), Text.NatToString(b);
      assert sa[..|sa| - 1] == Text.NatToString(a / 10);
      assert sb[..|sb| - 1] == Text.NatToString(b / 10);
      NatToStringInjective(a / 10, b / 10);
      DigitInjective(a % 10, b % 10);
    } else if a < 10 && b < 10 {
      DigitInjective(a, b);
    }
  }

  lemma DigitInjective(a: nat, b: nat)
    requires a < 10 && b < 10 && Text.Digit(a) == Text.Digit(b)
    ensures a == b
  {
  }

  /** One `useWebSocket()` instance: the socket its ref holds, every socket it
      opened, in order, the creation numbers of those that have closed, and the
      toasts it raised. */
  class SocketHolder {
    var current: Option<Socket>
    var history: seq<Socket>
    var closed: set<nat>
    var toasts: seq<Toast>

    /** The sockets opened and not yet closed. */
    function Live(): set<nat>
      reads this
    {
      set i | 0 <= i < |history| && i !in closed
    }

    /** Every opened socket except the held one has closed, and the held one
        is the newest: the holder has at most one live connection. */
    ghost predicate Valid()
      reads this
    {
      (forall i :: 0 <= i < |history| ==> history[i].serial == i)
      && (forall c :: c in closed ==> c < |history|)
      && Live() == (if current.Some? then {current.value.serial} else {})
      && (current.Some? ==> current.value == history[|history| - 1])
    }

    constructor ()
      ensures Valid()
      ensures current == None && history == [] && closed == {} && toasts == []
    {
      current := None;
      history := [];
      closed := {};
      toasts := [];
    }

    /** `startWebSocket`: opens a socket with the stored access token unless
        one is already held. */
    method Start(st: Storage, wsBase: string)
      requires Valid()
      modifies this
      ensures Valid()
      ensures old(current).Some? ==> current == old(current) && history == old(history)
      ensures old(current).None? ==>
        history == old(history) + [Socket(|old(history)|, SocketUrl(wsBase, Lookup(st.items, AccessKey)))]
        && current == Some(history[|history| - 1])
      ensures closed == old(closed) && toasts == old(toasts)
      ensures |Live()| <= 1
    {
      if current.None? {
        var token := GetAccessToken(st);
        var socket := Socket(|history|, SocketUrl(wsBase, token));
        history := history + [socket];
        current := Some(socket);
        assert Live() == old(Live()) + {socket.serial};
      }
      LiveAtMostOne();
    }

    /** The held socket's `onclose`: the ref is cleared, so the next start
        opens a new socket. */
    method OnClose()
      requires Valid()
      modifies this
      ensures Valid()
      ensures current == None && history == old(history) && toasts == old(toasts)
      ensures closed == old(closed) + (if old(current).Some? then {old(current).value.serial} else {})
      ensures Live() == {}
    {
      if current.Some? {
        closed := closed + {current.value.serial};
        current := None;
      }
    }

    /** `closeWebSocket`: closes and releases the held socket, if any; the
        same change of state as the socket's `onclose`. */
    method Close()
      requires Valid()
      modifies this
      ensures Valid()
      ensures current == None && history == old(history) && toasts == old(toasts)
      ensures closed == old(closed) + (if old(current).Some? then {old(current).value.serial} else {})
      ensures Live() == {}
    {
      OnClose();
    }

    /** The held socket's `onmessage`: one toast per pushed notification. */
    method OnMessage(n: Pushed)
      modifies this`toasts
      ensures toasts == old(toasts) + [MessageToast(n)]
    {
      toasts := toasts + [MessageToast(n)];
    }

    lemma LiveAtMostOne()
      requires Valid()
      ensures |Live()| <= 1
    {
    }
  }
}
