/** The path from a city pill to the charts: the client fetches
    `/api/stats/<label lower-cased>` from the server and hands the parsed
    body to updateChartsData. The fetch itself (network, status check,
    JSON parsing) is reduced to an optional reply body. */
module StatsWire {
  import opened Wrappers
  import opened Json
  import SisServer
  import SisDashboard

  /** `data.<key>` as a dataset: the array stored under `key`, if any. */
  function ArrayField(obj: Object, key: string): Option<seq<int>> {
    if key in obj && obj[key].Numbers? then Some(obj[key].items) else None
  }

  /** The four fields updateChartsData reads from a reply body. */
  function ParsePayload(obj: Object): SisDashboard.Payload {
    SisDashboard.Payload(ArrayField(obj, "distribution"), ArrayField(obj, "processed"),
                         ArrayField(obj, "status"), ArrayField(obj, "trend"))
  }

  /** Whatever city is asked for, the server's reply carries none of the
      fields the client reads ... */
  lemma ServerReplyHasNoChartFields(pillText: string)
    ensures ParsePayload(SisServer.GetStats(SisServer.Lower(pillText)))
            == SisDashboard.Payload(None, None, None, None)
  {
    var reply := SisServer.GetStats(SisServer.Lower(pillText));
    NoChartFields(reply);
  }

  /** The error record and the site records carry none of the four keys. */
  lemma NoChartFields(reply: Object)
    requires reply.Keys == {"error"} || reply.Keys == {"inventariado", "pendiente", "total_activos"}
    ensures ParsePayload(reply) == SisDashboard.Payload(None, None, None, None)
  {
    assert "distribution" !in reply;
    assert "processed" !in reply;
    assert "status" !in reply;
    assert "trend" !in reply;
  }

  /** ... so a successful fetch redraws no chart. */
  lemma ServerReplyPatchesNothing(pillText: string, charts: map<SisDashboard.Slot, SisDashboard.Chart>)
    ensures SisDashboard.Patched(charts, ParsePayload(SisServer.GetStats(SisServer.Lower(pillText)))) == charts
  {
    ServerReplyHasNoChartFields(pillText);
    var empty := SisDashboard.Payload(None, None, None, None);
    assert forall s :: SisDashboard.FieldFor(empty, s).None?;
    SisDashboard.SameTable(SisDashboard.Patched(charts, empty), charts);
  }

  /** A city pill's click handler once its fetch has settled: `body` is the
      parsed reply, or None when the request failed, the status was not 2xx
      or the body was not JSON (the error is only logged). The pills get
      their listeners only after the carousel check, so a page without the
      carousel never reaches this handler. */
  method SelectCity(d: SisDashboard.Dashboard, body: Option<Object>)
    requires d.carouselMounted
    modifies d
    ensures body.None? ==> d.charts == old(d.charts)
    ensures body.Some? ==> d.charts == SisDashboard.Patched(old(d.charts), ParsePayload(body.value))
    ensures d.darkMode == old(d.darkMode) && d.storedTheme == old(d.storedTheme)
    ensures d.released == old(d.released) && d.scrollPosition == old(d.scrollPosition)
    ensures d.glyph == old(d.glyph)
    ensures d.prevVisible == old(d.prevVisible) && d.nextVisible == old(d.nextVisible)
  {
    if body.Some? {
      d.UpdateChartsData(ParsePayload(body.value));
    }
  }
}
