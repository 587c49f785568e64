/** The entity types a scope can name, and their stored names. */
module EntityTypes {
  import opened Outcomes

  datatype EntityType = Groups | Channels | Clients | Dashboard | Messages | Domains | Users | Other(code: nat)

  function Decimal(n: nat): string {
    if n < 10 then ['0' + n as char] else Decimal(n / 10) + ['0' + (n % 10) as char]
  }

  function ToString(et: EntityType): string {
    match et
    case Groups => "groups"
    case Channels => "channels"
    case Clients => "clients"
    case Dashboard => "dashboards"
    case Messages => "messages"
    case Domains => "domains"
    case Users => "users"
    case Other(code) => "unknown domain entity type " + Decimal(code)
  }

  function Parse(s: string): Option<EntityType> {
    if s == "groups" then Some(Groups)
    else if s == "channels" then Some(Channels)
    else if s == "clients" then Some(Clients)
    else if s == "dashboards" then Some(Dashboard)
    else if s == "messages" then Some(Messages)
    else if s == "domains" then Some(Domains)
    else if s == "users" then Some(Users)
    else None
  }

  lemma {:induction false} DecimalPlain(n: nat)
    ensures ':' !in Decimal(n)
  {
    if n >= 10 {
      DecimalPlain(n / 10);
    }
  }

  /** Stored names read back as the type they name, exactly for the seven known types. */
  lemma ParseOfToString(et: EntityType)
    ensures Parse(ToString(et)) == if et.Other? then None else Some(et)
    ensures ':' !in ToString(et)
  {
    if et.Other? {
      var name := "unknown domain entity type " + Decimal(et.code);
      assert name[0] == 'u' && name[1] == 'n';
      DecimalPlain(et.code);
    }
  }
}
