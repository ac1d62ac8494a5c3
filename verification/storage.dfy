/** The two payload records and the browser's key-value store they are kept in
    (`saveJson`/`loadJson`, js/app.js:26-38; the keys, js/app.js:41-44). The text
    encoding of a payload is abstracted: an entry either holds a payload that reads
    back as written, or text that does not parse. */
module Storage {
  import opened Wrappers

  /** A booking request for a consultation. */
  datatype ConsultRequest = ConsultRequest(
    role: string, channel: string, contact: string, time: string, comment: string, createdAt: string)

  /** A request for a demo. */
  datatype DemoRequest = DemoRequest(
    name: string, email: string, status: string, message: string, createdAt: string)

  datatype Payload = ConsultPayload(consult: ConsultRequest) | DemoPayload(demo: DemoRequest)

  /** The text under one key: a stored payload, or text the page treats as
      nothing: the empty string, text that `JSON.parse` rejects, or text that
      parses to a falsy value (`null`, `false`, `0`, `""`). */
  datatype Entry = Saved(payload: Payload) | Unreadable

  type Store = map<string, Entry>

  const ConsultKey: string := "coursemind_consult_request_last"
  const DemoKey: string := "coursemind_demo_request_last"

  /** `loadJson`: the payload under `key`, or nothing when the key is missing or
      its text does not parse. */
  function Load(store: Store, key: string): (r: Option<Payload>)
    ensures r.Some? <==> key in store && store[key].Saved?
    ensures r.Some? ==> store[key] == Saved(r.value)
  {
    if key in store && store[key].Saved? then Some(store[key].payload) else None
  }

  /** `saveJson`: the payload replaces whatever was under `key`; every other key
      keeps its entry, and loading `key` gives the payload back. */
  function Save(store: Store, key: string, p: Payload): (s: Store)
    ensures Load(s, key) == Some(p)
    ensures s.Keys == store.Keys + {key}
    ensures forall k :: k in store && k != key ==> s[k] == store[k]
  {
    store[key := Saved(p)]
  }

  /** The two forms write to different slots. */
  lemma KeysDistinct()
    ensures ConsultKey != DemoKey
  {
    assert ConsultKey[11] != DemoKey[11];
  }

  /** Loading after saving: the saved key returns the payload, any other key
      returns what it returned before. */
  lemma LoadAfterSave(store: Store, key: string, other: string, p: Payload)
    ensures Load(Save(store, key, p), key) == Some(p)
    ensures other != key ==> Load(Save(store, key, p), other) == Load(store, other)
  {
  }

  /** Saving twice under one key keeps only the later payload. */
  lemma SaveOverwrites(store: Store, key: string, p: Payload, q: Payload)
    ensures Save(Save(store, key, p), key, q) == Save(store, key, q)
  {
  }
}
