/** What the host was told, against what the dongle keeps: buttons, keyboard and consumer states
    (src/esb_hid_relay_peripheral.c:85-104, src/esb_hid_relay_peripheral.c:143-153). */
module RelayHost {
  import opened Common
  import opened Layout
  import opened RelayReports
  import opened RelayDongle

  // ---- the last told ----

  /** The buttons of the last pointer report the sink took, `start` before the first. */
  function ToldButtons(start: Byte, host: seq<Usb>): Byte {
    if host == [] then start
    else
      var last := host[|host| - 1];
      if last.PointerUsb? then last.buttons else ToldButtons(start, host[..|host| - 1])
  }

  function ToldKeyboard(start: seq<Byte>, host: seq<Usb>): seq<Byte> {
    if host == [] then start
    else
      var last := host[|host| - 1];
      if last.StateUsb? && last.report.Keyboard? then last.report.rest else ToldKeyboard(start, host[..|host| - 1])
  }

  function ToldConsumer(start: seq<Byte>, host: seq<Usb>): seq<Byte> {
    if host == [] then start
    else
      var last := host[|host| - 1];
      if last.StateUsb? && last.report.Consumer? then last.report.rest else ToldConsumer(start, host[..|host| - 1])
  }

  /** The host, started as the dongle was, has been told what the dongle keeps. */
  predicate InStep(start: Dongle, host: seq<Usb>, d: Dongle) {
    && d.buttons == ToldButtons(start.buttons, host)
    && d.keyboard == ToldKeyboard(start.keyboard, host)
    && d.consumer == ToldConsumer(start.consumer, host)
  }

  lemma {:induction false} ToldMore(start: Dongle, host: seq<Usb>, u: Usb)
    ensures ToldButtons(start.buttons, host + [u])
            == if u.PointerUsb? then u.buttons else ToldButtons(start.buttons, host)
    ensures ToldKeyboard(start.keyboard, host + [u])
            == if u.StateUsb? && u.report.Keyboard? then u.report.rest else ToldKeyboard(start.keyboard, host)
    ensures ToldConsumer(start.consumer, host + [u])
            == if u.StateUsb? && u.report.Consumer? then u.report.rest else ToldConsumer(start.consumer, host)
  {
    assert (host + [u])[..|host|] == host;
  }

  lemma {:induction false} InStepMore(start: Dongle, host: seq<Usb>, d: Dongle, x: Delivery)
    requires d.Shaped() && WholeReport(x.report) && InStep(start, host, d)
    ensures InStep(start, host + Told(d, x), Deliver(d, x).0)
  {
    match Deliver(d, x).1
    case None => assert host + [] == host;
    case Some(u) => ToldMore(start, host, u);
  }

  /** Over every pattern of losses, repeats, silences and refused writes: what the sink last took of the
      buttons, the keyboard and the consumer report is what the dongle keeps of each. */
  lemma {:induction false} HostInStep(start: Dongle, ds: seq<Delivery>)
    requires start.Shaped() && Whole(ds)
    ensures InStep(start, Host(start, ds), After(start, ds))
  {
    if ds != [] {
      var init, x := ds[..|ds| - 1], ds[|ds| - 1];
      HostInStep(start, init);
      InStepMore(start, Host(start, init), After(start, init), x);
    }
  }

  // ---- every report the sink took was news ----

  /** The sink's report at `i` changed something: a state it had not, or motion, or buttons it had not;
      and `coalesce` says that only motion did. */
  predicate News(start: Dongle, host: seq<Usb>, i: nat)
    requires i < |host|
  {
    var before := host[..i];
    match host[i]
    case PointerUsb(buttons, deltas, coalesce) =>
      && coalesce == (buttons == ToldButtons(start.buttons, before))
      && (coalesce ==> Moves(deltas))
    case StateUsb(report) =>
      && (report.Keyboard? || report.Consumer?)
      && (report.Keyboard? ==> report.rest != ToldKeyboard(start.keyboard, before))
      && (report.Consumer? ==> report.rest != ToldConsumer(start.consumer, before))
  }

  ghost predicate AllNews(start: Dongle, host: seq<Usb>) {
    forall i :: 0 <= i < |host| ==> News(start, host, i)
  }

  lemma {:induction false} NewsMore(start: Dongle, host: seq<Usb>, d: Dongle, x: Delivery)
    requires d.Shaped() && WholeReport(x.report) && InStep(start, host, d) && AllNews(start, host)
    ensures AllNews(start, host + Told(d, x))
  {
    var all := host + Told(d, x);
    forall i | 0 <= i < |all| ensures News(start, all, i) {
      assert all[..i] == host[..i];
      if i < |host| { assert News(start, host, i); } else { assert host[..i] == host; }
    }
  }

  /** Nothing is told twice, and each pointer report is marked as motion alone exactly when it is. */
  lemma {:induction false} HostNews(start: Dongle, ds: seq<Delivery>)
    requires start.Shaped() && Whole(ds)
    ensures AllNews(start, Host(start, ds))
  {
    if ds != [] {
      var init, x := ds[..|ds| - 1], ds[|ds| - 1];
      HostNews(start, init);
      HostInStep(start, init);
      NewsMore(start, Host(start, init), After(start, init), x);
    }
  }

  // ---- a report that is taken is told ----

  /** The host shows report `r`. */
  predicate HostShows(start: Dongle, host: seq<Usb>, r: Report) {
    && (r.Mouse? ==> ToldButtons(start.buttons, host) == r.body.buttons)
    && (r.Keyboard? ==> ToldKeyboard(start.keyboard, host) == r.rest)
    && (r.Consumer? ==> ToldConsumer(start.consumer, host) == r.rest)
  }

  /** Once a report arrives and the sink has room the host shows it, whatever was lost before; and a
      keyboard or consumer report that is refused leaves the host and the dongle as they were. */
  lemma {:induction false} TakenIsTold(start: Dongle, ds: seq<Delivery>, x: Delivery)
    requires start.Shaped() && Whole(ds) && WholeReport(x.report)
    ensures Whole(ds + [x])
    ensures x.room ==> HostShows(start, Host(start, ds + [x]), x.report)
    ensures !x.room && !x.report.Mouse? ==>
              Host(start, ds + [x]) == Host(start, ds) && After(start, ds + [x]) == After(start, ds)
  {
    DeliverSnoc(start, ds, x);
    HostInStep(start, ds + [x]);
    TakenShows(start, Host(start, ds + [x]), After(start, ds), x);
    assert Host(start, ds) + [] == Host(start, ds);
  }

  lemma {:induction false} TakenShows(start: Dongle, host: seq<Usb>, d: Dongle, x: Delivery)
    requires d.Shaped() && WholeReport(x.report) && InStep(start, host, Deliver(d, x).0)
    ensures x.room ==> HostShows(start, host, x.report)
    ensures !x.room && !x.report.Mouse? ==> Deliver(d, x).0 == d && Told(d, x) == []
  {
  }
}
