/** The client directory as the sale routes use it: lookup by name, insert
    when absent, phone update when a different one is supplied. */
module Clients {
  import opened Common
  import opened Schema

  /** SELECT id FROM clients WHERE nom = nom: the first such client, when
      there is one. */
  function FindClient(cs: seq<Client>, nom: string): (r: Option<nat>)
    ensures r.Some? ==> 1 <= r.value <= |cs| && cs[r.value - 1].nom == nom
    ensures r.Some? ==> forall j :: 0 <= j < r.value - 1 ==> cs[j].nom != nom
    ensures r.None? <==> forall j :: 0 <= j < |cs| ==> cs[j].nom != nom
  {
    if cs == [] then None
    else if cs[0].nom == nom then Some(1)
    else match FindClient(cs[1..], nom)
      case None => None
      case Some(id) => Some(id + 1)
  }

  /** Step 1 of sale creation: the client table afterwards and the client id
      the sale refers to. An existing client gets the supplied phone when it
      is non-empty and differs; a new client stores the phone, or NULL when
      none was supplied. */
  function ResolveClient(cs: seq<Client>, nom: string, phone: Option<string>): (r: (seq<Client>, nat))
    ensures 1 <= r.1 <= |r.0| && r.0[r.1 - 1].nom == nom
    ensures Truthy(phone) ==> r.0[r.1 - 1].telephone == phone
    ensures FindClient(cs, nom).Some? ==>
      && r.1 == FindClient(cs, nom).value && |r.0| == |cs|
      && (forall i :: 0 <= i < |cs| && i != r.1 - 1 ==> r.0[i] == cs[i])
      && (!Truthy(phone) ==> r.0 == cs)
    ensures FindClient(cs, nom).None? ==>
      r == (cs + [Client(nom, if Truthy(phone) then phone else None)], |cs| + 1)
  {
    match FindClient(cs, nom)
    case Some(id) =>
      if Truthy(phone) && phone != cs[id - 1].telephone
      then (cs[id - 1 := cs[id - 1].(telephone := phone)], id)
      else (cs, id)
    case None =>
      (cs + [Client(nom, if Truthy(phone) then phone else None)], |cs| + 1)
  }

  /** The client id return-item records: the client of that name, or 0 when
      there is none. */
  function ReturnClientId(cs: seq<Client>, nom: string): (r: nat)
    ensures r == 0 <==> forall j :: 0 <= j < |cs| ==> cs[j].nom != nom
    ensures r != 0 ==> r <= |cs| && cs[r - 1].nom == nom
  {
    match FindClient(cs, nom)
    case Some(id) => id
    case None => 0
  }
}
