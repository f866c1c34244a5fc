/** The offense record the SIEM returns and the identifier that keys it; shared by
    the formatter, the notification cache and the run. */
module Offenses {

  import opened Wrappers

  type Id = int

  /** An offense as fetched from the SIEM. The four optional keys are `None` when the
      record lacks them; a present value is held as the text Python prints for it. */
  datatype Offense = Offense(
    id: Id,
    description: string,
    status: string,
    categories: Option<string>,
    startTime: int,
    severity: int,
    offenseSource: Option<string>,
    sourceNetwork: Option<string>,
    destinationNetworks: Option<string>)
}
