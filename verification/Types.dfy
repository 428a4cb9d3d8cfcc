/** The values the relay passes about: registrations, pushes and the optional value. */
module Types {

  datatype Option<+T> = None | Some(value: T)

  /** An instant, in seconds. Zero is the zero time, which the relay reads as "not set". */
  type Time = real

  const ZERO_TIME: Time := 0.0

  /** The site a device asked for; anything else a client may have written is `Unknown`. */
  datatype Mode = Alert | Background | Unknown(text: string) {
    predicate Valid() {
      !Unknown?
    }
  }

  datatype GmailAccount = GmailAccount(address: string, tag: string)

  /** One device, reachable one way. */
  datatype Registration = Registration(
    token: string,
    deviceToken: string,
    topic: string,
    sandbox: bool,
    mode: Mode,
    gmailAddress: string,
    gmailAccounts: seq<GmailAccount>,
    createdAt: Time,
    seenAt: Time,
    secretHash: string,
    expiresAt: Time) {

    /** Delivery's own gate: a proof that expires has expired. Zero means it does not. */
    predicate Lapsed(now: Time) {
      expiresAt != ZERO_TIME && !(now < expiresAt)
    }
  }

  /** What a provider sent: opaque bytes on JMAP, a cursor and the device's own tag on Gmail. */
  datatype Payload = Opaque(bytes: string) | Gmail(historyId: string, tag: Option<string>)

  /** A push that entered the relay. The number is its identity: no two arrivals share one. */
  datatype Push = Push(id: nat, registration: Registration, payload: Payload)

  /** A push with the registration it is to be delivered to, as a worker will see it. */
  datatype Job = Job(push: Push, registration: Registration)
}
