/**
 * Normalisation of the country catalogue (scripts/data_ingest.py): every raw
 * country object becomes a three-field record keyed by the country's common
 * name, with a default for every field that is missing.
 */
module CountryIngest {
  import opened Wrappers
  import opened Json

  /** Key used when a record has no `name` or no `name.common`. */
  const UnknownName: string := "Desconhecido"
  /** Capital used when `capital` is missing, empty or not a list. */
  const UnknownCapital: string := "Desconhecida"
  /** Population or region used when the field is missing. */
  const NotAvailable: string := "N/A"

  /** The three fields of every normalised record. */
  const RecordFields: set<string> := {"capital", "populacao", "continente"}

  /** The `name` object of a raw country; only its `common` entry is read. */
  datatype RawName = RawName(common: Option<string>)

  /** A raw country object as the catalogue returns it; every field may be absent. */
  datatype RawCountry = RawCountry(
    name: Option<RawName>,
    capital: Option<Json>,
    population: Option<Json>,
    region: Option<Json>)

  /** The record's `capital` field is present, is a list, and that list is not empty. */
  predicate HasFirstCapital(c: RawCountry) {
    c.capital.Some? && c.capital.value.JArr? && c.capital.value.items != []
  }

  /** The key of a raw country: `name.common`, falling back to `UnknownName`. */
  function NameOf(c: RawCountry): (key: string)
    ensures c.name.Some? && c.name.value.common.Some? ==> key == c.name.value.common.value
    ensures c.name.None? || c.name.value.common.None? ==> key == UnknownName
  {
    c.name.GetOr(RawName(None)).common.GetOr(UnknownName)
  }

  /** The normalised record of one raw country. */
  function Normalize(c: RawCountry): (info: Object)
    ensures info.Keys == RecordFields
    ensures HasFirstCapital(c) ==> info["capital"] == c.capital.value.items[0]
    ensures !HasFirstCapital(c) ==> info["capital"] == JStr(UnknownCapital)
    ensures c.population.Some? ==> info["populacao"] == c.population.value
    ensures c.population.None? ==> info["populacao"] == JStr(NotAvailable)
    ensures c.region.Some? ==> info["continente"] == c.region.value
    ensures c.region.None? ==> info["continente"] == JStr(NotAvailable)
  {
    var capital := c.capital.GetOr(JArr([JStr(UnknownCapital)]));
    var population := c.population.GetOr(JStr(NotAvailable));
    var region := c.region.GetOr(JStr(NotAvailable));
    map[
      "capital" := if capital.JArr? && capital.items != [] then capital.items[0] else JStr(UnknownCapital),
      "populacao" := population,
      "continente" := region
    ]
  }

  /** The dictionary built from `raw`, one assignment per record, in order. */
  function Processed(raw: seq<RawCountry>): map<string, Object>
  {
    if raw == [] then map[]
    else
      var last := raw[|raw| - 1];
      Processed(raw[..|raw| - 1])[NameOf(last) := Normalize(last)]
  }

  /** The keys of the records in `raw`. */
  function Names(raw: seq<RawCountry>): set<string> {
    set i | 0 <= i < |raw| :: NameOf(raw[i])
  }

  /** No record after position `i` has the name of record `i`. */
  predicate LastWithName(raw: seq<RawCountry>, i: int) {
    0 <= i < |raw| && forall j :: i < j < |raw| ==> NameOf(raw[j]) != NameOf(raw[i])
  }

  /** The dictionary's keys are exactly the names of the input records. */
  lemma {:induction false} ProcessedKeys(raw: seq<RawCountry>)
    ensures Processed(raw).Keys == Names(raw)
  {
    if raw != [] {
      var prefix := raw[..|raw| - 1];
      ProcessedKeys(prefix);
      assert forall i :: 0 <= i < |prefix| ==> prefix[i] == raw[i];
      assert Names(raw) == Names(prefix) + {NameOf(raw[|raw| - 1])};
    }
  }

  /** Every value of the dictionary has exactly the three record fields. */
  lemma {:induction false} ProcessedShape(raw: seq<RawCountry>)
    ensures forall k :: k in Processed(raw) ==> Processed(raw)[k].Keys == RecordFields
  {
    if raw != [] {
      ProcessedShape(raw[..|raw| - 1]);
    }
  }

  /** Last write wins: the record stored under a name is that of the last input record carrying it. */
  lemma {:induction false} ProcessedLastWins(raw: seq<RawCountry>, i: int)
    requires LastWithName(raw, i)
    ensures NameOf(raw[i]) in Processed(raw)
    ensures Processed(raw)[NameOf(raw[i])] == Normalize(raw[i])
  {
    var n := |raw| - 1;
    if i < n {
      var prefix := raw[..n];
      assert NameOf(raw[n]) != NameOf(raw[i]);
      assert LastWithName(prefix, i) by {
        forall j | i < j < |prefix| ensures NameOf(prefix[j]) != NameOf(prefix[i]) {
          assert prefix[j] == raw[j];
        }
      }
      ProcessedLastWins(prefix, i);
    }
  }

  /** Every stored record comes from the last input record with its name. */
  lemma {:induction false} ProcessedFromLast(raw: seq<RawCountry>, k: string)
    requires k in Processed(raw)
    ensures exists i :: LastWithName(raw, i) && NameOf(raw[i]) == k && Processed(raw)[k] == Normalize(raw[i])
  {
    var n := |raw| - 1;
    if NameOf(raw[n]) == k {
      assert LastWithName(raw, n);
    } else {
      var prefix := raw[..n];
      ProcessedFromLast(prefix, k);
      var i :| LastWithName(prefix, i) && NameOf(prefix[i]) == k && Processed(prefix)[k] == Normalize(prefix[i]);
      assert prefix[i] == raw[i];
      assert LastWithName(raw, i) by {
        forall j | i < j < |raw| ensures NameOf(raw[j]) != NameOf(raw[i]) {
          if j < n { assert prefix[j] == raw[j]; }
        }
      }
    }
  }

  /** Of two records with the same name, the later one's fields are kept when no record after it shares the name. */
  lemma LaterRecordOverwrites(raw: seq<RawCountry>, i: int, j: int)
    requires 0 <= i < j < |raw| && NameOf(raw[i]) == NameOf(raw[j])
    requires LastWithName(raw, j)
    ensures NameOf(raw[i]) in Processed(raw)
    ensures Processed(raw)[NameOf(raw[i])] == Normalize(raw[j])
    ensures !LastWithName(raw, i)
  {
    ProcessedLastWins(raw, j);
  }

  /** `process_country_data`: builds the dictionary from name to normalised record. */
  method ProcessCountryData(raw: seq<RawCountry>) returns (processed: map<string, Object>)
    ensures processed == Processed(raw)
    ensures processed.Keys == Names(raw)
    ensures forall k :: k in processed ==> processed[k].Keys == RecordFields
  {
    processed := map[];
    for i := 0 to |raw|
      invariant processed == Processed(raw[..i])
    {
      var country := raw[i];
      assert raw[..i + 1][..i] == raw[..i];
      processed := processed[NameOf(country) := Normalize(country)];
    }
    assert raw[..|raw|] == raw;
    ProcessedKeys(raw);
    ProcessedShape(raw);
  }

  /** The catalogue entry for Brazil normalises to its capital, population and region. */
  lemma BrazilExample()
    ensures var brazil := RawCountry(
              Some(RawName(Some("Brazil"))),
              Some(JArr([JStr("Brasília")])),
              Some(JNum(212000000)),
              Some(JStr("Americas")));
            NameOf(brazil) == "Brazil" &&
            Normalize(brazil) == map["capital" := JStr("Brasília"), "populacao" := JNum(212000000), "continente" := JStr("Americas")]
  {
  }
}
