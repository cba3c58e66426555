/** Event ingestion: an adapter normalises raw records, and an upsert that skips rows whose
    payload hash has not changed stores them, one row per source and record id. The hash is
    taken of the payload's JSON text with sorted keys. */
module EventTable {
  import opened Wrappers
  import opened JsonValues
  import opened PyText

  /** A decoded payload. */
  type Raw = map<string, Json>

  datatype Event = Event(
    source: string, recordId: string, url: Option<string>, hash: string, raw: Raw, title: string,
    host: Option<string>, region: Option<string>, venue: Option<string>, start: Option<int>, end: Option<int>)

  type Key = (string, string)

  function KeyOf(e: Event): Key {
    (e.source, e.recordId)
  }

  // ---- Normalisation -----------------------------------------------------------------

  /** The payload as it is hashed: the order of fields, at any depth, is gone. */
  function SortedRaw(raw: Raw): Raw {
    map k | k in raw :: Sorted(raw[k])
  }

  /** Candidate keys of each normalised field. */
  type Candidates = map<string, seq<string>>

  /** A source adapter; `isGayoje`, `parseDate` and `sha1` are any functions, and so are
      `str`, Python's `str()` of what is not a string, and `digest`, the SHA-256 of the JSON
      text of a sorted payload. */
  datatype Adapter = Adapter(
    source: string,
    str: Json -> string,
    candidates: Candidates,
    isGayoje: string -> bool,
    parseDate: string -> Option<int>,
    sha1: string -> string,
    digest: Raw -> string)

  function PayloadHash(a: Adapter, raw: Raw): string {
    a.digest(SortedRaw(raw))
  }

  /** A value that is neither null nor the empty string; 0, false and [] are values. */
  predicate HasValue(raw: Raw, key: string) {
    key in raw && raw[key] != JNull && raw[key] != JStr("")
  }

  /** str(v).strip() */
  function ShownValue(str: Json -> string, v: Json): string {
    Strip(if v.JStr? then v.s else str(v))
  }

  /** The value of the first candidate key that has one. */
  function FirstValue(str: Json -> string, raw: Raw, keys: seq<string>): Option<string> {
    if keys == [] then None
    else if HasValue(raw, keys[0]) then Some(ShownValue(str, raw[keys[0]]))
    else FirstValue(str, raw, keys[1..])
  }

  lemma {:induction false} FirstValueIsFirst(str: Json -> string, raw: Raw, keys: seq<string>)
    ensures FirstValue(str, raw, keys).None? <==> forall i | 0 <= i < |keys| :: !HasValue(raw, keys[i])
    ensures forall i | 0 <= i < |keys| && HasValue(raw, keys[i]) && (forall j | 0 <= j < i :: !HasValue(raw, keys[j])) ::
              FirstValue(str, raw, keys) == Some(ShownValue(str, raw[keys[i]]))
  {
    if keys != [] {
      FirstValueIsFirst(str, raw, keys[1..]);
      assert forall i | 0 < i < |keys| :: keys[i] == keys[1..][i - 1];
      forall i | 0 < i < |keys| && HasValue(raw, keys[i]) && (forall j | 0 <= j < i :: !HasValue(raw, keys[j]))
        ensures FirstValue(str, raw, keys) == Some(ShownValue(str, raw[keys[i]]))
      {
        assert keys[1..][i - 1] == keys[i] && !HasValue(raw, keys[0]);
        assert forall j | 0 <= j < i - 1 :: keys[1..][j] == keys[j + 1];
      }
    }
  }

  function CandidatesOf(candidates: Candidates, name: string): seq<string> {
    if name in candidates then candidates[name] else []
  }

  function FieldOf(a: Adapter, raw: Raw, name: string): Option<string> {
    FirstValue(a.str, raw, CandidatesOf(a.candidates, name))
  }

  function OrEmpty(x: Option<string>): string {
    if x.Some? then x.value else ""
  }

  function Take(s: string, n: nat): string {
    if |s| > n then s[..n] else s
  }

  /** The explicit id if there is one that is not blank, else a digest of title, start and venue. */
  function RecordId(a: Adapter, raw: Raw, title: string): string {
    var explicit := OrEmpty(FieldOf(a, raw, "id"));
    if explicit != "" then explicit
    else Take(a.sha1(title + "|" + OrEmpty(FieldOf(a, raw, "start")) + "|" + OrEmpty(FieldOf(a, raw, "venue"))), 24)
  }

  function DateOf(a: Adapter, s: Option<string>): Option<int> {
    if OrEmpty(s) == "" then None else a.parseDate(s.value)
  }

  function Normalize(a: Adapter, raw: Raw): Option<Event> {
    var title := OrEmpty(FieldOf(a, raw, "title"));
    if title == "" || !a.isGayoje(title) then None
    else Some(Event(a.source, RecordId(a, raw, title), FieldOf(a, raw, "url"), PayloadHash(a, raw), raw, title,
                    FieldOf(a, raw, "host"), FieldOf(a, raw, "address"), FieldOf(a, raw, "venue"),
                    DateOf(a, FieldOf(a, raw, "start")), DateOf(a, FieldOf(a, raw, "end"))))
  }

  /** x is what the first of these keys that has a value shows, as text and stripped; None if
      none has one. */
  ghost predicate IsFirstOf(str: Json -> string, raw: Raw, keys: seq<string>, x: Option<string>) {
    && (x.None? <==> forall i | 0 <= i < |keys| :: !HasValue(raw, keys[i]))
    && forall i | 0 <= i < |keys| && HasValue(raw, keys[i]) && (forall j | 0 <= j < i :: !HasValue(raw, keys[j])) ::
         x == Some(Strip(if raw[keys[i]].JStr? then raw[keys[i]].s else str(raw[keys[i]])))
  }

  /** The field of this name, by its own candidates. */
  ghost predicate Shows(a: Adapter, raw: Raw, name: string, x: Option<string>) {
    IsFirstOf(a.str, raw, if name in a.candidates then a.candidates[name] else [], x)
  }

  /** The record id is the explicit one if that is there and not blank, else the beginning of
      a digest of title, start and venue. */
  lemma RecordIdMeans(a: Adapter, raw: Raw, id: Option<string>, start: Option<string>, venue: Option<string>)
    requires Shows(a, raw, "id", id) && Shows(a, raw, "start", start) && Shows(a, raw, "venue", venue)
    requires Normalize(a, raw).Some?
    ensures var e := Normalize(a, raw).value;
            var digest := a.sha1(e.title + "|" + (if start.Some? then start.value else "") + "|"
                                 + (if venue.Some? then venue.value else ""));
            && (id.Some? && id.value != "" ==> e.recordId == id.value)
            && (id.None? || id.value == "" ==>
                  e.recordId <= digest && |e.recordId| == if |digest| < 24 then |digest| else 24)
  {
    OnlyFirst(a, raw, "id", id);
    OnlyFirst(a, raw, "start", start);
    OnlyFirst(a, raw, "venue", venue);
  }

  /** Which field of an event comes from where: each from its own candidates, the dates
      through the date parser. */
  lemma NormalizeMeans(a: Adapter, raw: Raw, title: Option<string>, start: Option<string>, end: Option<string>,
                       venue: Option<string>)
    requires Shows(a, raw, "title", title) && Shows(a, raw, "start", start) && Shows(a, raw, "end", end)
    requires Shows(a, raw, "venue", venue)
    ensures Normalize(a, raw).Some? <==> title.Some? && title.value != "" && a.isGayoje(title.value)
    ensures Normalize(a, raw).Some? ==>
              var e := Normalize(a, raw).value;
              && e.source == a.source && e.raw == raw && e.hash == a.digest(SortedRaw(raw))
              && Some(e.title) == title && e.venue == venue
              && Shows(a, raw, "url", e.url) && Shows(a, raw, "host", e.host) && Shows(a, raw, "address", e.region)
              && e.start == (if start.None? || start.value == "" then None else a.parseDate(start.value))
              && e.end == (if end.None? || end.value == "" then None else a.parseDate(end.value))
  {
    OnlyFirst(a, raw, "title", title);
    OnlyFirst(a, raw, "start", start);
    OnlyFirst(a, raw, "end", end);
    OnlyFirst(a, raw, "venue", venue);
    OnlyFirst(a, raw, "url", None);
    OnlyFirst(a, raw, "host", None);
    OnlyFirst(a, raw, "address", None);
  }

  lemma OnlyFirst(a: Adapter, raw: Raw, name: string, x: Option<string>)
    ensures Shows(a, raw, name, FieldOf(a, raw, name))
    ensures Shows(a, raw, name, x) ==> x == FieldOf(a, raw, name)
  {
    var keys := if name in a.candidates then a.candidates[name] else [];
    FirstValueIsFirst(a.str, raw, keys);
    if IsFirstOf(a.str, raw, keys, x) { FirstIsOne(a.str, raw, keys, x); }
  }

  lemma FirstIsOne(str: Json -> string, raw: Raw, keys: seq<string>, x: Option<string>)
    requires IsFirstOf(str, raw, keys, x)
    ensures x == FirstValue(str, raw, keys)
  {
    FirstValueIsFirst(str, raw, keys);
    if x.Some? {
      var i := FirstWithValue(raw, keys);
      assert FirstValue(str, raw, keys) == Some(ShownValue(str, raw[keys[i]]));
    }
  }

  lemma {:induction false} FirstWithValue(raw: Raw, keys: seq<string>) returns (i: nat)
    requires exists k :: 0 <= k < |keys| && HasValue(raw, keys[k])
    ensures i < |keys| && HasValue(raw, keys[i]) && forall j | 0 <= j < i :: !HasValue(raw, keys[j])
  {
    i := 0;
    if !HasValue(raw, keys[0]) {
      var k :| 0 <= k < |keys| && HasValue(raw, keys[k]);
      assert keys[1..][k - 1] == keys[k];
      var n := FirstWithValue(raw, keys[1..]);
      i := n + 1;
      assert forall j | 0 < j < i :: keys[j] == keys[1..][j - 1];
    }
  }

  /** A crawled board post and the payload made of it. */
  datatype Post = Post(title: string, detailUrl: string, start: Option<string>, end: Option<string>,
                       venue: Option<string>, host: Option<string>)

  function OrNull(x: Option<string>): Json {
    if x.Some? then JStr(x.value) else JNull
  }

  function PostPayload(source: string, p: Post): Raw {
    map["title" := JStr(p.title), "detail_url" := JStr(p.detailUrl), "source_system" := JStr(source),
        "start_date" := OrNull(p.start), "end_date" := OrNull(p.end), "venue" := OrNull(p.venue),
        "host_org" := OrNull(p.host)]
  }

  function PostEvent(a: Adapter, recordId: string -> string, p: Post): Event {
    var raw := PostPayload(a.source, p);
    Event(a.source, recordId(p.detailUrl), Some(p.detailUrl), PayloadHash(a, raw), raw, p.title,
          p.host, None, p.venue, DateOf(a, p.start), DateOf(a, p.end))
  }

  /** The same for a board post: its fields go where they belong ... */
  lemma PostEventMeans(a: Adapter, recordId: string -> string, p: Post)
    ensures var e := PostEvent(a, recordId, p);
            && KeyOf(e) == (a.source, recordId(p.detailUrl)) && e.url == Some(p.detailUrl)
            && e.title == p.title && e.host == p.host && e.venue == p.venue && e.region == None
            && e.start == (if p.start.None? || p.start.value == "" then None else a.parseDate(p.start.value))
            && e.end == (if p.end.None? || p.end.value == "" then None else a.parseDate(p.end.value))
            && e.raw == PostPayload(a.source, p) && e.hash == a.digest(SortedRaw(e.raw))
  {
  }

  /** ... and into the payload, where null stands for what is missing. */
  lemma PostPayloadMeans(source: string, p: Post)
    ensures var raw := PostPayload(source, p);
            && raw.Keys == {"title", "detail_url", "source_system", "start_date", "end_date", "venue", "host_org"}
            && raw["title"] == JStr(p.title) && raw["detail_url"] == JStr(p.detailUrl) && raw["source_system"] == JStr(source)
            && raw["start_date"] == (if p.start.Some? then JStr(p.start.value) else JNull)
            && raw["end_date"] == (if p.end.Some? then JStr(p.end.value) else JNull)
            && raw["venue"] == (if p.venue.Some? then JStr(p.venue.value) else JNull)
            && raw["host_org"] == (if p.host.Some? then JStr(p.host.value) else JNull)
  {
  }

  // ---- The table ---------------------------------------------------------------------

  ghost predicate DistinctKeys(rows: seq<Event>) {
    forall i, j | 0 <= i < j < |rows| :: KeyOf(rows[i]) != KeyOf(rows[j])
  }

  /** SELECT ... WHERE source_system = ... AND source_record_id = ... */
  function Find(rows: seq<Event>, key: Key): (at: Option<nat>)
    ensures at.Some? ==> at.value < |rows| && KeyOf(rows[at.value]) == key
    ensures at.None? ==> forall i | 0 <= i < |rows| :: KeyOf(rows[i]) != key
  {
    if rows == [] then None
    else if KeyOf(rows[|rows| - 1]) == key then Some(|rows| - 1)
    else Find(rows[..|rows| - 1], key)
  }

  /** The rows with e in the place of its key, or at the end. */
  function Put(rows: seq<Event>, e: Event): seq<Event> {
    var at := Find(rows, KeyOf(e));
    if at.Some? then rows[at.value := e] else rows + [e]
  }

  /** Last write wins. */
  function PutAll(rows: seq<Event>, es: seq<Event>): seq<Event> {
    if es == [] then rows else Put(PutAll(rows, es[..|es| - 1]), es[|es| - 1])
  }

  datatype Outcome = Inserted | Updated | Unchanged

  predicate SameHash(rows: seq<Event>, e: Event) {
    var at := Find(rows, KeyOf(e));
    at.Some? && rows[at.value].hash == e.hash
  }

  /** What the hash-skipping upsert leaves. */
  function Upserted(rows: seq<Event>, e: Event): seq<Event> {
    if SameHash(rows, e) then rows else Put(rows, e)
  }

  /** The skip agrees with a plain write exactly when a row with the same hash is the same
      row. */
  lemma SkipIsSoundExactlyWhen(rows: seq<Event>, e: Event)
    ensures Upserted(rows, e) == Put(rows, e) <==>
              (SameHash(rows, e) ==> rows[Find(rows, KeyOf(e)).value] == e)
  {
    if SameHash(rows, e) {
      assert Put(rows, e)[Find(rows, KeyOf(e)).value] == e;
    }
  }

  /** So it is not sound after a change to a normaliser: the old fields stay although the
      record is ingested anew. */
  lemma StaleAfterNormaliserChange(e: Event, title: string)
    requires title != e.title
    ensures var renormalised := e.(title := title);
            && Upserted([e], renormalised) == [e]
            && Put([e], renormalised) == [renormalised]
  {
  }

  // ---- Rows that agree but for nested order ------------------------------------------

  /** The same row, with the fields of dicts inside the payload in whatever order. */
  ghost predicate Alike(x: Event, y: Event) {
    x == y.(raw := x.raw) && SortedRaw(x.raw) == SortedRaw(y.raw)
  }

  ghost predicate AlikeTables(xs: seq<Event>, ys: seq<Event>) {
    |xs| == |ys| && forall i | 0 <= i < |xs| :: Alike(xs[i], ys[i])
  }

  lemma {:induction false} FindAlike(xs: seq<Event>, ys: seq<Event>, key: Key)
    requires AlikeTables(xs, ys)
    ensures Find(xs, key) == Find(ys, key)
  {
    if xs != [] {
      assert Alike(xs[|xs| - 1], ys[|xs| - 1]);
      FindAlike(xs[..|xs| - 1], ys[..|xs| - 1], key);
    }
  }

  lemma PutAlike(xs: seq<Event>, ys: seq<Event>, e: Event)
    requires AlikeTables(xs, ys)
    ensures AlikeTables(Put(xs, e), Put(ys, e))
  {
    FindAlike(xs, ys, KeyOf(e));
  }

  lemma AlikeChain(xs: seq<Event>, ys: seq<Event>, zs: seq<Event>)
    requires AlikeTables(xs, ys) && AlikeTables(ys, zs)
    ensures AlikeTables(xs, zs)
  {
    forall i | 0 <= i < |xs| ensures Alike(xs[i], zs[i]) {
      assert Alike(xs[i], ys[i]) && Alike(ys[i], zs[i]);
    }
  }

  /** No value of the payload has an order of fields to lose. */
  predicate OrderFreeRaw(raw: Raw) {
    forall k | k in raw :: OrderFree(raw[k])
  }

  lemma OrderFreeAlike(x: Event, y: Event)
    requires Alike(x, y) && OrderFreeRaw(x.raw)
    ensures x == y
  {
    forall k | k in x.raw ensures k in y.raw && x.raw[k] == y.raw[k] {
      assert k in SortedRaw(y.raw) && SortedRaw(x.raw)[k] == SortedRaw(y.raw)[k];
      OrderFreeFixed(x.raw[k], y.raw[k]);
    }
    forall k | k in y.raw ensures k in x.raw { assert k in SortedRaw(x.raw); }
    assert x.raw == y.raw;
  }

  // ---- When one hash means one row ---------------------------------------------------

  const SHOWN := ["title", "url", "host", "address", "venue", "start", "end"]

  /** The first candidate key that has a value. */
  function ShownKey(raw: Raw, keys: seq<string>): (k: Option<string>)
    ensures k.Some? ==> HasValue(raw, k.value)
  {
    if keys == [] then None
    else if HasValue(raw, keys[0]) then Some(keys[0])
    else ShownKey(raw, keys[1..])
  }

  lemma {:induction false} FirstValueShown(str: Json -> string, raw: Raw, keys: seq<string>)
    ensures var k := ShownKey(raw, keys);
            FirstValue(str, raw, keys) == if k.Some? then Some(ShownValue(str, raw[k.value])) else None
  {
    if keys != [] && !HasValue(raw, keys[0]) { FirstValueShown(str, raw, keys[1..]); }
  }

  lemma {:induction false} SameShownKey(r: Raw, s: Raw, keys: seq<string>)
    requires SortedRaw(r) == SortedRaw(s)
    ensures ShownKey(r, keys) == ShownKey(s, keys)
  {
    if keys != [] {
      SameAt(r, s, keys[0]);
      SameShownKey(r, s, keys[1..]);
    }
  }

  lemma SameAt(r: Raw, s: Raw, k: string)
    requires SortedRaw(r) == SortedRaw(s)
    ensures k in r <==> k in s
    ensures k in r ==> Sorted(r[k]) == Sorted(s[k])
    ensures HasValue(r, k) <==> HasValue(s, k)
  {
    assert k in r <==> k in SortedRaw(r);
    assert k in s <==> k in SortedRaw(s);
    if k in r { assert SortedRaw(r)[k] == SortedRaw(s)[k]; }
  }

  /** `str()` of anything but a string shows something. */
  ghost predicate IsStr(str: Json -> string) {
    forall v: Json :: !v.JStr? ==> Strip(str(v)) != ""
  }

  /** There is a title to normalise. */
  predicate Titled(candidates: Candidates, raw: Raw) {
    var k := ShownKey(raw, CandidatesOf(candidates, "title"));
    k.Some? && (raw[k.value].JStr? ==> Strip(raw[k.value].s) != "")
  }

  /** No field shows a value with an order of fields to lose, unless that value is the
      record id as well. */
  predicate Settled(candidates: Candidates, raw: Raw) {
    Titled(candidates, raw) ==> forall name | name in SHOWN :: SettledAt(candidates, raw, name)
  }

  predicate SettledAt(candidates: Candidates, raw: Raw, name: string) {
    var k := ShownKey(raw, CandidatesOf(candidates, name));
    k.Some? ==> OrderFree(raw[k.value]) || k == ShownKey(raw, CandidatesOf(candidates, "id"))
  }

  /** Both payloads are accepted, for one row. */
  ghost predicate SameRecord(a: Adapter, r: Raw, s: Raw) {
    Normalize(a, r).Some? && Normalize(a, s).Some? && KeyOf(Normalize(a, r).value) == KeyOf(Normalize(a, s).value)
  }

  lemma SettledFieldAgrees(a: Adapter, r: Raw, s: Raw, name: string)
    requires IsStr(a.str) && SortedRaw(r) == SortedRaw(s) && SameRecord(a, r, s)
    requires SettledAt(a.candidates, r, name)
    ensures FieldOf(a, r, name) == FieldOf(a, s, name)
  {
    var keys, ids := CandidatesOf(a.candidates, name), CandidatesOf(a.candidates, "id");
    FirstValueShown(a.str, r, keys);
    FirstValueShown(a.str, s, keys);
    SameShownKey(r, s, keys);
    var k := ShownKey(r, keys);
    if k.Some? {
      SameAt(r, s, k.value);
      if OrderFree(r[k.value]) {
        OrderFreeFixed(r[k.value], s[k.value]);
      } else {
        FirstValueShown(a.str, r, ids);
        FirstValueShown(a.str, s, ids);
        SameShownKey(r, s, ids);
      }
    }
  }

  /** With settled payloads one hash means one row but for nested order, ... */
  lemma SettledRowsAgree(a: Adapter, r: Raw, s: Raw)
    requires IsStr(a.str) && SortedRaw(r) == SortedRaw(s) && SameRecord(a, r, s) && Settled(a.candidates, r)
    ensures Alike(Normalize(a, r).value, Normalize(a, s).value)
  {
    FirstValueShown(a.str, r, CandidatesOf(a.candidates, "title"));
    forall name | name in SHOWN ensures FieldOf(a, r, name) == FieldOf(a, s, name) {
      SettledFieldAgrees(a, r, s, name);
    }
    assert SHOWN[0] == "title" && SHOWN[1] == "url" && SHOWN[2] == "host" && SHOWN[3] == "address"
        && SHOWN[4] == "venue" && SHOWN[5] == "start" && SHOWN[6] == "end";
  }

  /** An adapter that shows w as "b" and all else as "a", and takes everything. */
  function Telling(candidates: Candidates, w: Json): Adapter {
    Adapter("", (v: Json) => if v == w then "b" else "a", candidates, _ => true,
            s => Some(if s == "b" then 1 else 0), _ => "", _ => "")
  }

  /** ... and without, some adapter with these candidates makes two different rows. */
  lemma UnsettledRowsDiffer(candidates: Candidates, r: Raw, name: string) returns (a: Adapter, s: Raw)
    requires Titled(candidates, r) && name in SHOWN && !SettledAt(candidates, r, name)
    requires forall k | k in r :: IsJson(r[k])
    ensures a.candidates == candidates && IsStr(a.str) && SortedRaw(r) == SortedRaw(s) && SameRecord(a, r, s)
    ensures !Alike(Normalize(a, r).value, Normalize(a, s).value)
  {
    var k := ShownKey(r, CandidatesOf(candidates, name)).value;
    var w := OtherOrder(r[k]);
    s := r[k := w];
    a := Telling(candidates, w);
    TellingTells(candidates, w, r[k]);
    SwappedSorts(r, k, w);
    TakesTitled(a, r, s, k);
    OneRecord(a, r, s, k);
    FieldSwapped(a, r, s, k, name);
    FieldDiffersRowDiffers(a, r, s, name);
  }

  lemma SwappedSorts(r: Raw, k: string, w: Json)
    requires k in r && Sorted(r[k]) == Sorted(w)
    ensures SortedRaw(r[k := w]) == SortedRaw(r)
  {
  }

  lemma OneRecord(a: Adapter, r: Raw, s: Raw, k: string)
    requires Normalize(a, r).Some? && Normalize(a, s).Some? && forall t :: Take(a.sha1(t), 24) == ""
    requires k in r && k in s && s == r[k := s[k]] && SortedRaw(r) == SortedRaw(s)
    requires ShownKey(r, CandidatesOf(a.candidates, "id")) != Some(k)
    ensures SameRecord(a, r, s)
  {
    FieldSwapped(a, r, s, k, "id");
  }

  lemma TellingTells(candidates: Candidates, w: Json, v: Json)
    requires v != w && !v.JStr? && !w.JStr?
    ensures var a := Telling(candidates, w);
            && IsStr(a.str) && ShownValue(a.str, v) == "a" && ShownValue(a.str, w) == "b"
            && a.parseDate("a") != a.parseDate("b") && forall t :: a.isGayoje(t) && Take(a.sha1(t), 24) == ""
  {
    assert Strip("a") == "a" && Strip("b") == "b";
  }

  lemma FieldDiffersRowDiffers(a: Adapter, r: Raw, s: Raw, name: string)
    requires Normalize(a, r).Some? && Normalize(a, s).Some? && name in SHOWN
    requires FieldOf(a, r, name) == Some("a") && FieldOf(a, s, name) == Some("b")
    requires a.parseDate("a") != a.parseDate("b")
    ensures !Alike(Normalize(a, r).value, Normalize(a, s).value)
  {
  }

  lemma TakesTitled(a: Adapter, r: Raw, s: Raw, k: string)
    requires IsStr(a.str) && (forall t :: a.isGayoje(t)) && Titled(a.candidates, r)
    requires k in r && k in s && s == r[k := s[k]] && SortedRaw(r) == SortedRaw(s) && !r[k].JStr? && !s[k].JStr?
    ensures Normalize(a, r).Some? && Normalize(a, s).Some?
  {
    FieldSwapped(a, r, s, k, "title");
    FirstValueShown(a.str, r, CandidatesOf(a.candidates, "title"));
  }

  lemma FieldSwapped(a: Adapter, r: Raw, s: Raw, k: string, n: string)
    requires k in r && k in s && s == r[k := s[k]] && SortedRaw(r) == SortedRaw(s)
    ensures var keys := CandidatesOf(a.candidates, n);
            && (ShownKey(r, keys) != Some(k) ==> FieldOf(a, s, n) == FieldOf(a, r, n))
            && (ShownKey(r, keys) == Some(k) ==>
                  FieldOf(a, r, n) == Some(ShownValue(a.str, r[k])) && FieldOf(a, s, n) == Some(ShownValue(a.str, s[k])))
            && (ShownKey(r, keys).None? ==> FieldOf(a, r, n) == None)
  {
    var keys := CandidatesOf(a.candidates, n);
    FirstValueShown(a.str, r, keys);
    FirstValueShown(a.str, s, keys);
    SameShownKey(r, s, keys);
  }

  /** So the payloads for which a hash fixes the row, whatever `str`, dates and filter make of
      the values, are the settled ones. */
  lemma HashFixesRowExactlyWhen(candidates: Candidates, r: Raw)
    requires forall k | k in r :: IsJson(r[k])
    ensures (forall a: Adapter, s: Raw ::
               a.candidates == candidates && IsStr(a.str) && SortedRaw(r) == SortedRaw(s) && SameRecord(a, r, s) ==>
               Alike(Normalize(a, r).value, Normalize(a, s).value))
            <==> Settled(candidates, r)
  {
    if Settled(candidates, r) {
      forall a: Adapter, s: Raw | a.candidates == candidates && IsStr(a.str) && SortedRaw(r) == SortedRaw(s) && SameRecord(a, r, s)
        ensures Alike(Normalize(a, r).value, Normalize(a, s).value)
      {
        SettledRowsAgree(a, r, s);
      }
    } else {
      var name :| name in SHOWN && !SettledAt(candidates, r, name);
      var a, s := UnsettledRowsDiffer(candidates, r, name);
    }
  }

  function WithTitle(id: string, title: Json): Raw {
    map["id" := JStr(id), "title" := title]
  }

  lemma SameHashIsSkipped(e: Event, f: Event)
    requires KeyOf(e) == KeyOf(f) && e.hash == f.hash
    ensures Upserted([e], f) == [e] && Put([e], f) == [f]
  {
  }

  lemma TitledByDict(a: Adapter, id: string, v: Json)
    requires CandidatesOf(a.candidates, "title") == ["title"] && CandidatesOf(a.candidates, "id") == ["id"]
    requires Strip(id) != "" && v.JDict? && IsStr(a.str) && a.isGayoje(Strip(a.str(v)))
    ensures var e := Normalize(a, WithTitle(id, v));
            && e.Some? && e.value.title == Strip(a.str(v)) && KeyOf(e.value) == (a.source, Strip(id))
            && e.value.hash == PayloadHash(a, WithTitle(id, v))
  {
    var r := WithTitle(id, v);
    FirstValueShown(a.str, r, ["title"]);
    FirstValueShown(a.str, r, ["id"]);
  }

  /** A title that is a dict, its fields in two orders: one hash, and where `str` tells the
      two apart the skip keeps the old title. */
  lemma NestedOrderGoesStale(a: Adapter, id: string, v: Json, w: Json)
    requires CandidatesOf(a.candidates, "title") == ["title"] && CandidatesOf(a.candidates, "id") == ["id"]
    requires Strip(id) != "" && v.JDict? && w.JDict? && Sorted(v) == Sorted(w)
    requires Strip(a.str(v)) != Strip(a.str(w)) && IsStr(a.str)
    requires a.isGayoje(Strip(a.str(v))) && a.isGayoje(Strip(a.str(w)))
    ensures var before, after := Normalize(a, WithTitle(id, v)), Normalize(a, WithTitle(id, w));
            && before.Some? && after.Some? && before.value.title != after.value.title
            && Upserted([before.value], after.value) == [before.value]
            && Put([before.value], after.value) == [after.value]
  {
    TitledByDict(a, id, v);
    TitledByDict(a, id, w);
    SwappedSorts(WithTitle(id, v), "title", w);
    assert WithTitle(id, v)["title" := w] == WithTitle(id, w);
    SameHashIsSkipped(Normalize(a, WithTitle(id, v)).value, Normalize(a, WithTitle(id, w)).value);
  }

  // ---- The skip is sound -------------------------------------------------------------

  /** Among these payloads the digest has no collisions. */
  ghost predicate NoCollision(digest: Raw -> string, known: set<Raw>) {
    forall r, s | r in known && s in known && digest(SortedRaw(r)) == digest(SortedRaw(s)) :: SortedRaw(r) == SortedRaw(s)
  }

  /** What the skip needs of the payloads that ever come. */
  ghost predicate Tellable(a: Adapter, known: set<Raw>) {
    IsStr(a.str) && NoCollision(a.digest, known) && forall r | r in known :: Settled(a.candidates, r)
  }

  /** The adapter's rows are what their payloads normalise to. */
  ghost predicate Derived(a: Adapter, rows: seq<Event>, known: set<Raw>) {
    forall e | e in rows && e.source == a.source :: e.raw in known && Normalize(a, e.raw) == Some(e)
  }

  lemma UpsertedFrom(rows: seq<Event>, e: Event)
    ensures forall x | x in Upserted(rows, e) :: x in rows || x == e
  {
  }

  /** Then skipping does what writing does, nested order aside. */
  lemma SkipIsSound(a: Adapter, rows: seq<Event>, known: set<Raw>, e: Event)
    requires Tellable(a, known) && Derived(a, rows, known)
    requires e.raw in known && Normalize(a, e.raw) == Some(e)
    ensures AlikeTables(Upserted(rows, e), Put(rows, e)) && Derived(a, Upserted(rows, e), known)
  {
    if SameHash(rows, e) {
      var row := rows[Find(rows, KeyOf(e)).value];
      assert row in rows && row.source == e.source == a.source;
      SettledRowsAgree(a, row.raw, e.raw);
    }
    UpsertedFrom(rows, e);
  }

  /** The rows of a board are made from posts. */
  ghost predicate DerivedFromPosts(a: Adapter, recordId: string -> string, rows: seq<Event>, known: set<Raw>) {
    forall e | e in rows && e.source == a.source :: e.raw in known && exists p: Post :: PostEvent(a, recordId, p) == e
  }

  lemma PostPayloadSorted(source: string, p: Post)
    ensures SortedRaw(PostPayload(source, p)) == PostPayload(source, p)
  {
  }

  /** A payload determines its post. */
  lemma PayloadDeterminesPost(source: string, p: Post, q: Post)
    ensures PostPayload(source, p) == PostPayload(source, q) ==> p == q
  {
    var r, s := PostPayload(source, p), PostPayload(source, q);
    if r == s {
      assert r["title"] == s["title"] && r["detail_url"] == s["detail_url"] && r["start_date"] == s["start_date"]
          && r["end_date"] == s["end_date"] && r["venue"] == s["venue"] && r["host_org"] == s["host_org"];
    }
  }

  /** Board payloads hold no dicts, so there skipping does exactly what writing does. */
  lemma PostSkipIsSound(a: Adapter, recordId: string -> string, rows: seq<Event>, known: set<Raw>, p: Post)
    requires NoCollision(a.digest, known) && DerivedFromPosts(a, recordId, rows, known)
    requires PostPayload(a.source, p) in known
    ensures var e := PostEvent(a, recordId, p);
            Upserted(rows, e) == Put(rows, e) && DerivedFromPosts(a, recordId, Upserted(rows, e), known)
  {
    var e := PostEvent(a, recordId, p);
    if SameHash(rows, e) {
      var row := rows[Find(rows, KeyOf(e)).value];
      assert row in rows && row.source == e.source == a.source;
      var q: Post :| PostEvent(a, recordId, q) == row;
      PostPayloadSorted(a.source, p);
      PostPayloadSorted(a.source, q);
      PayloadDeterminesPost(a.source, p, q);
    }
    UpsertedFrom(rows, e);
  }

  datatype Counts = Counts(inserted: nat, updated: nat, same: nat, skipped: nat)

  /** The four counts add up to n. */
  predicate Accounts(c: Counts, n: int) {
    c.inserted + c.updated + c.same + c.skipped == n
  }

  function Count(c: Counts, o: Outcome): Counts {
    match o
    case Inserted => c.(inserted := c.inserted + 1)
    case Updated => c.(updated := c.updated + 1)
    case Unchanged => c.(same := c.same + 1)
  }

  /** The events a batch of raw records normalises to, in order. */
  function Normalized(a: Adapter, raws: seq<Raw>): seq<Event> {
    if raws == [] then []
    else
      var last := Normalize(a, raws[|raws| - 1]);
      Normalized(a, raws[..|raws| - 1]) + if last.Some? then [last.value] else []
  }

  function PostEvents(a: Adapter, recordId: string -> string, posts: seq<Post>): seq<Event> {
    if posts == [] then []
    else PostEvents(a, recordId, posts[..|posts| - 1]) + [PostEvent(a, recordId, posts[|posts| - 1])]
  }

  lemma NormalizedSnoc(a: Adapter, raws: seq<Raw>, i: nat)
    requires i < |raws|
    ensures Normalized(a, raws[..i + 1]) ==
            if Normalize(a, raws[i]).Some? then Normalized(a, raws[..i]) + [Normalize(a, raws[i]).value]
            else Normalized(a, raws[..i])
  {
    assert raws[..i + 1][..i] == raws[..i];
  }

  lemma PostEventsSnoc(a: Adapter, recordId: string -> string, posts: seq<Post>, i: nat)
    requires i < |posts|
    ensures PostEvents(a, recordId, posts[..i + 1]) ==
            PostEvents(a, recordId, posts[..i]) + [PostEvent(a, recordId, posts[i])]
  {
    assert posts[..i + 1][..i] == posts[..i];
  }

  lemma PutAllSnoc(rows: seq<Event>, es: seq<Event>, e: Event)
    ensures PutAll(rows, es + [e]) == Put(PutAll(rows, es), e)
  {
    assert (es + [e])[..|es|] == es;
  }

  /** e is a new version of a row that is there. */
  ghost predicate Changes(rows: seq<Event>, e: Event) {
    exists i :: 0 <= i < |rows| && KeyOf(rows[i]) == KeyOf(e) && Find(rows, KeyOf(e)) == Some(i) && rows[i].hash != e.hash
  }

  ghost function UpsertAll(rows: seq<Event>, es: seq<Event>): seq<Event> {
    if es == [] then rows else Upserted(UpsertAll(rows, es[..|es| - 1]), es[|es| - 1])
  }

  /** How many events of a batch are new versions of rows as they then stand. */
  ghost function Updates(rows: seq<Event>, es: seq<Event>): nat {
    if es == [] then 0
    else
      var before := es[..|es| - 1];
      Updates(rows, before) + if Changes(UpsertAll(rows, before), es[|es| - 1]) then 1 else 0
  }

  lemma UpdatesSnoc(rows: seq<Event>, es: seq<Event>, e: Event)
    ensures UpsertAll(rows, es + [e]) == Upserted(UpsertAll(rows, es), e)
    ensures Updates(rows, es + [e]) == Updates(rows, es) + if Changes(UpsertAll(rows, es), e) then 1 else 0
  {
    assert (es + [e])[..|es|] == es;
  }

  class Table {
    var rows: seq<Event>

    constructor ()
      ensures rows == []
    {
      rows := [];
    }

    method UpsertEvent(e: Event) returns (o: Outcome)
      modifies this
      ensures rows == Upserted(old(rows), e)
      ensures o == Inserted <==> Find(old(rows), KeyOf(e)).None?
      ensures o == Unchanged <==> SameHash(old(rows), e)
      ensures o == Inserted ==> |rows| == |old(rows)| + 1
      ensures o != Inserted ==> |rows| == |old(rows)|
    {
      var at := Find(rows, KeyOf(e));
      if at.None? {
        rows := rows + [e];
        return Inserted;
      }
      if rows[at.value].hash == e.hash { return Unchanged; }
      rows := rows[at.value := rows[at.value].(url := e.url, hash := e.hash, raw := e.raw, title := e.title,
                                               host := e.host, region := e.region, venue := e.venue,
                                               start := e.start, end := e.end)];
      return Updated;
    }

    /** One upsert and its count. */
    method Store(e: Event, counts: Counts) returns (c: Counts)
      modifies this
      ensures rows == Upserted(old(rows), e)
      ensures c.skipped == counts.skipped && forall n :: Accounts(counts, n) ==> Accounts(c, n + 1)
      ensures |rows| - c.inserted == |old(rows)| - counts.inserted
      ensures c.updated == counts.updated + if Changes(old(rows), e) then 1 else 0
    {
      var o := UpsertEvent(e);
      c := Count(counts, o);
    }

    /** The table ends up as plain last-write-wins would leave it but for nested order, and
        exactly so when no payload has any; the counts account for every record, and the
        insertions for every new row. */
    method IngestRecords(a: Adapter, raws: seq<Raw>, ghost known: set<Raw>) returns (counts: Counts)
      requires Tellable(a, known) && Derived(a, rows, known) && forall r | r in raws :: r in known
      modifies this
      ensures Derived(a, rows, known)
      ensures AlikeTables(rows, PutAll(old(rows), Normalized(a, raws)))
      ensures (forall e | e in rows :: OrderFreeRaw(e.raw)) ==> rows == PutAll(old(rows), Normalized(a, raws))
      ensures Accounts(counts, |raws|) && counts.skipped == |raws| - |Normalized(a, raws)|
      ensures |rows| == |old(rows)| + counts.inserted
      ensures counts.updated == Updates(old(rows), Normalized(a, raws))
    {
      counts := Counts(0, 0, 0, 0);
      ghost var es: seq<Event> := [];
      for i := 0 to |raws|
        invariant rows == UpsertAll(old(rows), es) && counts.updated == Updates(old(rows), es)
        invariant Derived(a, rows, known)
        invariant es == Normalized(a, raws[..i])
        invariant AlikeTables(rows, PutAll(old(rows), es))
        invariant Accounts(counts, i) && counts.skipped == i - |es|
        invariant |rows| == |old(rows)| + counts.inserted
      {
        var e := Normalize(a, raws[i]);
        NormalizedSnoc(a, raws, i);
        if e.None? {
          counts := counts.(skipped := counts.skipped + 1);
          continue;
        }
        SkipKeepsAlike(a, rows, known, e.value, old(rows), es);
        UpdatesSnoc(old(rows), es, e.value);
        es := es + [e.value];
        counts := Store(e.value, counts);
      }
      assert raws[..|raws|] == raws;
      OrderFreeTables(rows, PutAll(old(rows), es));
    }

    /** The same for board posts, and exactly. */
    method IngestBoardPosts(a: Adapter, recordId: string -> string, posts: seq<Post>, ghost known: set<Raw>)
      returns (counts: Counts)
      requires NoCollision(a.digest, known) && DerivedFromPosts(a, recordId, rows, known)
      requires forall p | p in posts :: PostPayload(a.source, p) in known
      modifies this
      ensures DerivedFromPosts(a, recordId, rows, known)
      ensures rows == PutAll(old(rows), PostEvents(a, recordId, posts))
      ensures Accounts(counts, |posts|) && counts.skipped == 0
      ensures |rows| == |old(rows)| + counts.inserted
      ensures counts.updated == Updates(old(rows), PostEvents(a, recordId, posts))
    {
      counts := Counts(0, 0, 0, 0);
      ghost var es: seq<Event> := [];
      for i := 0 to |posts|
        invariant rows == UpsertAll(old(rows), es) && counts.updated == Updates(old(rows), es)
        invariant DerivedFromPosts(a, recordId, rows, known)
        invariant es == PostEvents(a, recordId, posts[..i])
        invariant rows == PutAll(old(rows), es)
        invariant Accounts(counts, i) && counts.skipped == 0
        invariant |rows| == |old(rows)| + counts.inserted
      {
        var e := PostEvent(a, recordId, posts[i]);
        PostEventsSnoc(a, recordId, posts, i);
        PostSkipIsSound(a, recordId, rows, known, posts[i]);
        PutAllSnoc(old(rows), es, e);
        UpdatesSnoc(old(rows), es, e);
        es := es + [e];
        counts := Store(e, counts);
      }
      assert posts[..|posts|] == posts;
    }
  }

  lemma SkipKeepsAlike(a: Adapter, rows: seq<Event>, known: set<Raw>, e: Event, start: seq<Event>, es: seq<Event>)
    requires Tellable(a, known) && Derived(a, rows, known) && e.raw in known && Normalize(a, e.raw) == Some(e)
    requires AlikeTables(rows, PutAll(start, es))
    ensures AlikeTables(Upserted(rows, e), PutAll(start, es + [e])) && Derived(a, Upserted(rows, e), known)
  {
    SkipIsSound(a, rows, known, e);
    PutAlike(rows, PutAll(start, es), e);
    PutAllSnoc(start, es, e);
    AlikeChain(Upserted(rows, e), Put(rows, e), PutAll(start, es + [e]));
  }

  lemma OrderFreeTables(xs: seq<Event>, ys: seq<Event>)
    requires AlikeTables(xs, ys)
    ensures (forall e | e in xs :: OrderFreeRaw(e.raw)) ==> xs == ys
  {
    if forall e | e in xs :: OrderFreeRaw(e.raw) {
      forall i | 0 <= i < |xs| ensures xs[i] == ys[i] { OrderFreeAlike(xs[i], ys[i]); }
    }
  }

  // ---- What the table says afterwards ------------------------------------------------

  /** `e` is the last of the batch for its key. */
  ghost predicate IsLast(es: seq<Event>, i: nat) {
    i < |es| && forall j | i < j < |es| :: KeyOf(es[j]) != KeyOf(es[i])
  }

  lemma {:induction false} PutAllKeepsDistinct(rows: seq<Event>, es: seq<Event>)
    requires DistinctKeys(rows)
    ensures DistinctKeys(PutAll(rows, es))
  {
    if es != [] {
      PutAllKeepsDistinct(rows, es[..|es| - 1]);
      PutKeepsOthers(PutAll(rows, es[..|es| - 1]), es[|es| - 1]);
    }
  }

  /** The stored row of a key is the last event of the batch for it ... */
  lemma {:induction false} LastWriteWins(rows: seq<Event>, es: seq<Event>, i: nat)
    requires DistinctKeys(rows) && IsLast(es, i)
    ensures es[i] in PutAll(rows, es)
  {
    var n := |es| - 1;
    PutAllKeepsDistinct(rows, es[..n]);
    PutKeepsOthers(PutAll(rows, es[..n]), es[n]);
    if i < n {
      assert es[..n][i] == es[i];
      LastWriteWins(rows, es[..n], i);
    }
  }

  /** ... or the row it had, when the batch has none. */
  lemma {:induction false} OtherRowsStay(rows: seq<Event>, es: seq<Event>, e: Event)
    requires DistinctKeys(rows) && e in rows && forall j | 0 <= j < |es| :: KeyOf(es[j]) != KeyOf(e)
    ensures e in PutAll(rows, es)
  {
    if es != [] {
      var n := |es| - 1;
      PutAllKeepsDistinct(rows, es[..n]);
      OtherRowsStay(rows, es[..n], e);
      PutKeepsOthers(PutAll(rows, es[..n]), es[n]);
    }
  }

  lemma PutKeepsOthers(rows: seq<Event>, e: Event)
    requires DistinctKeys(rows)
    ensures DistinctKeys(Put(rows, e)) && e in Put(rows, e)
    ensures forall x | x in rows && KeyOf(x) != KeyOf(e) :: x in Put(rows, e)
  {
    var after := Put(rows, e);
    var at := if Find(rows, KeyOf(e)).Some? then Find(rows, KeyOf(e)).value else |rows|;
    assert after[at] == e;
    forall x | x in rows && KeyOf(x) != KeyOf(e) ensures x in after {
      var i :| 0 <= i < |rows| && rows[i] == x;
      assert after[i] == x;
    }
  }

  lemma {:induction false} FindUnique(rows: seq<Event>, i: nat)
    requires DistinctKeys(rows) && i < |rows|
    ensures Find(rows, KeyOf(rows[i])) == Some(i)
  {
  }

  ghost predicate SameKeys(a: seq<Event>, b: seq<Event>) {
    |a| == |b| && forall i | 0 <= i < |b| :: KeyOf(a[i]) == KeyOf(b[i])
  }

  /** Position by position, putting a batch whose keys are all there already. */
  lemma {:induction false} PutAllInPlace(rows: seq<Event>, es: seq<Event>)
    requires DistinctKeys(rows) && forall j | 0 <= j < |es| :: Find(rows, KeyOf(es[j])).Some?
    ensures SameKeys(PutAll(rows, es), rows)
  {
    if es != [] {
      var n := |es| - 1;
      PutAllInPlace(rows, es[..n]);
      PutAgain(rows, PutAll(rows, es[..n]), es[n]);
    }
  }

  lemma PutAgain(rows: seq<Event>, now: seq<Event>, e: Event)
    requires SameKeys(now, rows) && DistinctKeys(rows) && Find(rows, KeyOf(e)).Some?
    ensures SameKeys(Put(now, e), rows)
  {
    var at := Find(rows, KeyOf(e)).value;
    assert KeyOf(now[at]) == KeyOf(e);
    PutInPlace(now, e, at);
  }

  lemma PutInPlace(rows: seq<Event>, e: Event, at: nat)
    requires DistinctKeys(rows) && at < |rows| && KeyOf(rows[at]) == KeyOf(e)
    ensures Put(rows, e) == rows[at := e]
  {
    FindUnique(rows, at);
  }

  /** Ingesting a batch again changes nothing, not even when it holds several versions of
      one record. */
  lemma ReingestChangesNothing(rows: seq<Event>, es: seq<Event>)
    requires DistinctKeys(rows)
    ensures PutAll(PutAll(rows, es), es) == PutAll(rows, es)
  {
    var once := PutAll(rows, es);
    var twice := PutAll(once, es);
    PutAllKeepsDistinct(rows, es);
    forall j | 0 <= j < |es| ensures Find(once, KeyOf(es[j])).Some? {
      var i := LastFor(es, j);
      LastWriteWins(rows, es, i);
    }
    PutAllInPlace(once, es);
    PutAllKeepsDistinct(once, es);
    forall k | 0 <= k < |once| ensures twice[k] == once[k] {
      SameRowAgain(rows, es, k);
    }
  }

  lemma SameRowAgain(rows: seq<Event>, es: seq<Event>, k: nat)
    requires DistinctKeys(rows) && DistinctKeys(PutAll(rows, es)) && DistinctKeys(PutAll(PutAll(rows, es), es))
    requires k < |PutAll(rows, es)| == |PutAll(PutAll(rows, es), es)|
    requires KeyOf(PutAll(PutAll(rows, es), es)[k]) == KeyOf(PutAll(rows, es)[k])
    ensures PutAll(PutAll(rows, es), es)[k] == PutAll(rows, es)[k]
  {
    var once := PutAll(rows, es);
    if j :| 0 <= j < |es| && KeyOf(es[j]) == KeyOf(once[k]) {
      var i := LastFor(es, j);
      LastWriteWins(rows, es, i);
      LastWriteWins(once, es, i);
      SameKeySameRow(once, k, es[i]);
      SameKeySameRow(PutAll(once, es), k, es[i]);
    } else {
      OtherRowsStay(once, es, once[k]);
      SameKeySameRow(PutAll(once, es), k, once[k]);
    }
  }

  lemma SameKeySameRow(rows: seq<Event>, k: nat, e: Event)
    requires DistinctKeys(rows) && k < |rows| && e in rows && KeyOf(rows[k]) == KeyOf(e)
    ensures rows[k] == e
  {
  }

  lemma {:induction false} LastFor(es: seq<Event>, j: nat) returns (i: nat)
    requires j < |es|
    ensures IsLast(es, i) && KeyOf(es[i]) == KeyOf(es[j])
    decreases |es| - j
  {
    if k :| j < k < |es| && KeyOf(es[k]) == KeyOf(es[j]) {
      i := LastFor(es, k);
    } else {
      i := j;
    }
  }
}
