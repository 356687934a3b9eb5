/** The record types of model.py that the core passes around. */
module Records {

  /** Event kinds: four log/poll outcomes plus the two status kinds the app writes itself. */
  datatype Kind = Fail | Ok | Ban | Unban | Info | Err {
    predicate IsActivity() { !Info? && !Err? }
  }

  /** The text the source stores for a kind (`"FAIL"`, `"OK"`, ...). */
  function KindName(k: Kind): string {
    match k
    case Fail => "FAIL"
    case Ok => "OK"
    case Ban => "BAN"
    case Unban => "UNBAN"
    case Info => "INFO"
    case Err => "ERR"
  }

  /** Where an event came from: the auth log, the fail2ban log, ban polling, or the app itself. */
  datatype Source = Auth | F2b | Poll | Sys

  function SourceName(s: Source): string {
    match s
    case Auth => "auth"
    case F2b => "f2b"
    case Poll => "poll"
    case Sys => "sys"
  }

  datatype Event = Event(ts: int, src: Source, kind: Kind, ip: string, jail: string, msg: string)

  datatype AsnInfo = AsnInfo(asn: string, cc: string, asName: string, fetchedTs: int)
}
