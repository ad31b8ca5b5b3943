/** DNS providers as the services see them: records that live under ids, and calls that may fail. */
module Provider {
  /** A record by what it says; a zone holds at most one record of each type, name and content, because creating one
      first looks for it (server/internal/service/cloudflare.go:108-135). */
  datatype Key = Key(zone: string, kind: string, name: string, content: string)

  datatype Settings = Settings(ttl: int, proxied: bool)

  datatype Entry = Entry(id: nat, settings: Settings)

  type Records = map<Key, Entry>

  /** All zones together: their live records and the next unused id. */
  datatype Zones = Zones(live: Records, next: nat)

  /** The empty id of a record that was stored without one. */
  const NO_ID := 0

  ghost predicate Valid(z: Zones) {
    && z.next > NO_ID
    && (forall k :: k in z.live ==> NO_ID < z.live[k].id < z.next)
    && (forall k, l :: k in z.live && l in z.live && k.zone == l.zone && z.live[k].id == z.live[l].id ==> k == l)
  }

  /** An id that no record has is deleted without an error (server/internal/service/cloudflare.go:179-200). */
  function Delete(live: Records, zone: string, id: nat): Records {
    map k | k in live && !(k.zone == zone && live[k].id == id) :: live[k]
  }

  /** A record that is already there is adopted as it is. */
  function Create(z: Zones, key: Key, settings: Settings): Zones {
    if key in z.live then z else Zones(z.live[key := Entry(z.next, settings)], z.next + 1)
  }

  /** What the zones say, ids aside. */
  function Contents(live: Records): map<Key, Settings> {
    map k | k in live :: live[k].settings
  }

  lemma CreateKeepsValid(z: Zones, key: Key, settings: Settings)
    requires Valid(z)
    ensures Valid(Create(z, key, settings)) && key in Create(z, key, settings).live
  {
  }

  /** A record that is there keeps its id and its settings; another gets an id that no record of its zone has. Either
      way it is live and all else is as before. */
  lemma CreateAdoptsOrAdds(z: Zones, key: Key, settings: Settings)
    requires Valid(z)
    ensures var z2 := Create(z, key, settings);
      && Valid(z2) && z2.live.Keys == z.live.Keys + {key} && (forall k :: k in z.live ==> z2.live[k] == z.live[k])
      && (key !in z.live ==> z2.live[key].settings == settings
                             && forall k :: k in z.live && k.zone == key.zone ==> z.live[k].id != z2.live[key].id)
  {
  }

  /** Deleting by the id of a live record removes that record alone. */
  lemma DeleteRemovesOne(z: Zones, key: Key)
    requires Valid(z) && key in z.live
    ensures Delete(z.live, key.zone, z.live[key].id) == z.live - {key}
  {
  }
}
