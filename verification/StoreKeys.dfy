/** The text keys under which the repositories file their entries in Redis. The model files entries
    under structured keys; the texts tell exactly as much apart. */
module StoreKeys {
  import opened Domain

  function AgencyText(a: Agency): string {
    match a
    case Mpk => "mpk"
    case Mobilis => "mobilis"
    case MpkTram => "mpk_tram"
  }

  /** `date` is the ISO form of a date, ten characters long. */
  function SavedKeyText(a: Agency, tripId: string, date: string): string {
    "saved:" + (AgencyText(a) + ":" + (tripId + ":" + date))
  }

  function VehicleKeyText(a: Agency, licensePlate: string): string {
    "vs:" + (AgencyText(a) + ":" + licensePlate)
  }

  function TripKeyText(a: Agency, tripId: string): string {
    "tu:" + (AgencyText(a) + ":" + tripId)
  }

  lemma DropPrefix(p: string, x: string, y: string)
    requires p + x == p + y
    ensures x == y
  {
    assert (p + x)[|p|..] == x && (p + y)[|p|..] == y;
  }

  /** An agency's name ends at the first colon after it, whatever follows. */
  lemma AgencyIsReadable(a: Agency, rest: string, b: Agency, rest': string)
    requires AgencyText(a) + ":" + rest == AgencyText(b) + ":" + rest'
    ensures a == b && rest == rest'
  {
    var x, y := AgencyText(a) + ":" + rest, AgencyText(b) + ":" + rest';
    assert x[1] == AgencyText(a)[1] && y[1] == AgencyText(b)[1];
    assert a != Mobilis ==> x[3] == if a == Mpk then ':' else '_';
    assert b != Mobilis ==> y[3] == if b == Mpk then ':' else '_';
    DropPrefix(AgencyText(a) + ":", rest, rest');
  }

  /** Different saved hashes have different keys, though trip ids may contain colons. */
  lemma SavedKeysDiffer(a: Agency, tripId: string, date: string, b: Agency, tripId': string, date': string)
    requires |date| == |date'| == 10
    requires SavedKeyText(a, tripId, date) == SavedKeyText(b, tripId', date')
    ensures a == b && tripId == tripId' && date == date'
  {
    var rest, rest' := tripId + ":" + date, tripId' + ":" + date';
    DropPrefix("saved:", AgencyText(a) + ":" + rest, AgencyText(b) + ":" + rest');
    AgencyIsReadable(a, rest, b, rest');
    DateIsReadable(tripId, date, tripId', date');
  }

  /** A date of known length is told from the trip before it. */
  lemma DateIsReadable(tripId: string, date: string, tripId': string, date': string)
    requires |date| == |date'| && tripId + ":" + date == tripId' + ":" + date'
    ensures tripId == tripId' && date == date'
  {
    var rest, rest', n := tripId + ":" + date, tripId' + ":" + date', |tripId|;
    assert |tripId'| == n;
    assert rest[..n] == tripId && rest'[..n] == tripId';
    assert rest[n + 1..] == date && rest'[n + 1..] == date';
  }

  lemma VehicleKeysDiffer(a: Agency, licensePlate: string, b: Agency, licensePlate': string)
    requires VehicleKeyText(a, licensePlate) == VehicleKeyText(b, licensePlate')
    ensures a == b && licensePlate == licensePlate'
  {
    DropPrefix("vs:", AgencyText(a) + ":" + licensePlate, AgencyText(b) + ":" + licensePlate');
    AgencyIsReadable(a, licensePlate, b, licensePlate');
  }

  lemma TripKeysDiffer(a: Agency, tripId: string, b: Agency, tripId': string)
    requires TripKeyText(a, tripId) == TripKeyText(b, tripId')
    ensures a == b && tripId == tripId'
  {
    DropPrefix("tu:", AgencyText(a) + ":" + tripId, AgencyText(b) + ":" + tripId');
    AgencyIsReadable(a, tripId, b, tripId');
  }

  /** Entries of different kinds never share a key. */
  lemma KindsDiffer(a: Agency, tripId: string, date: string, b: Agency, licensePlate: string, c: Agency,
                    tripId': string)
    ensures SavedKeyText(a, tripId, date) != VehicleKeyText(b, licensePlate)
    ensures VehicleKeyText(b, licensePlate) != TripKeyText(c, tripId')
    ensures TripKeyText(c, tripId') != SavedKeyText(a, tripId, date)
  {
    assert SavedKeyText(a, tripId, date)[0] == 's';
    assert VehicleKeyText(b, licensePlate)[0] == 'v' && TripKeyText(c, tripId')[0] == 't';
  }
}
