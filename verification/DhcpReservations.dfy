/**
 From the reservations of the configuration to the answers of the server: which
 client is recognised by which spelling of its hardware address, and which
 addresses belong to the server's subnet.
 */
module DhcpReservations {
  import opened Common
  import opened Ipv4
  import opened Mac
  import opened MacMaps
  import opened MacSpelling
  import opened DhcpServer
  import Spec = DhcpLeases

  /** A request the server takes over: an address of its own subnet. */
  ghost predicate Fitting(srv: Server, requests: map<string, Option<IP>>, key: string) {
    && key in requests && requests[key].Some?
    && SameBlock(srv.serverIP, requests[key].value, srv.subnetSize)
  }

  lemma AdmittedIffFitting(srv: Server, requests: map<string, Option<IP>>, key: string)
    requires srv.subnetSize > 0
    ensures key in srv.AdmittedOf(requests) <==> Fitting(srv, requests, key)
    ensures Fitting(srv, requests, key) ==> Some(srv.AdmittedOf(requests)[key]) == requests[key]
  {
    if key in requests && requests[key].Some? {
      SameBlockIff(srv.serverIP, requests[key].value, srv.subnetSize);
    }
  }

  /** After `SetReservations`, a client has a reservation exactly when a fitting key spells its address. */
  lemma HasReservationIff(srv: Server, requests: map<string, Option<IP>>, client: string)
    requires srv.Valid() && Overlay(map[], srv.AdmittedOf(requests), srv.reservations)
    ensures Spec.HasReservation(srv.Abs(), client) <==>
            exists key :: Fitting(srv, requests, key) && SpelledAlike(key, client)
  {
    FilledIff(srv.AdmittedOf(requests), srv.reservations, client);
    forall key
      ensures key in srv.AdmittedOf(requests) <==> Fitting(srv, requests, key)
    {
      AdmittedIffFitting(srv, requests, key);
    }
  }

  /** Every fitting spelling of the client's address names the same address. */
  ghost predicate RequestsAgree(srv: Server, requests: map<string, Option<IP>>, key: string) {
    forall other ::
      Fitting(srv, requests, other) && SpelledAlike(other, key) ==> key in requests && requests[other] == requests[key]
  }

  lemma ReservedAddress(srv: Server, requests: map<string, Option<IP>>, key: string, client: string)
    requires srv.Valid() && Overlay(map[], srv.AdmittedOf(requests), srv.reservations)
    requires Fitting(srv, requests, key) && RequestsAgree(srv, requests, key) && SpelledAlike(key, client)
    ensures Normalize(client) in srv.reservations
    ensures Some(srv.reservations[Normalize(client)]) == requests[key]
  {
    forall other
      ensures other in srv.AdmittedOf(requests) <==> Fitting(srv, requests, other)
      ensures Fitting(srv, requests, other) ==> Some(srv.AdmittedOf(requests)[other]) == requests[other]
    {
      AdmittedIffFitting(srv, requests, other);
    }
    FilledValue(map[], srv.AdmittedOf(requests), srv.reservations, key, client);
  }

  /**
   A reservation reaches its client: once set, under any spelling of the
   address, a request from the client is answered the reserved address.
   */
  method ReserveThenAllocate(srv: Server, requests: map<string, Option<IP>>, key: string, client: string, now: int)
    returns (ip: Option<IP>)
    requires srv.Valid() && Fitting(srv, requests, key) && RequestsAgree(srv, requests, key)
    requires SpelledAlike(key, client)
    modifies srv
    ensures srv.Valid() && ip == requests[key]
  {
    srv.SetReservations(requests);
    ReservedAddress(srv, requests, key, client);
    ghost var reserved := srv.reservations[Normalize(client)];
    assert Spec.HasReservation(srv.Abs(), client) && srv.Abs().reservations[Normalize(client)] == Value(reserved);
    ip := srv.Allocate(client, now);
    ValueInjective(ip.value, reserved);
  }
}
