// VpnConnectionOptions (Amazon EC2): one `bool?` member read through
// `?? default(bool)`.
module Ec2VpnConnectionOptions {
  import opened Wrappers
  import opened Presence

  class VpnConnectionOptions {
    var staticRoutesOnly: Option<bool>

    constructor ()
      ensures staticRoutesOnly == None
      ensures !IsSetStaticRoutesOnly() && !StaticRoutesOnly()
    {
      staticRoutesOnly := None;
    }

    function StaticRoutesOnly(): bool
      reads this
    {
      BoolOrDefault(staticRoutesOnly)
    }

    predicate IsSetStaticRoutesOnly()
      reads this
    {
      IsSetValue(staticRoutesOnly)
    }

    /** The setter takes a plain bool, so afterwards the member is set whatever it was. */
    method SetStaticRoutesOnly(value: bool)
      modifies this
      ensures staticRoutesOnly == Some(value)
      ensures StaticRoutesOnly() == value && IsSetStaticRoutesOnly()
    {
      staticRoutesOnly := Some(value);
    }
  }

  /**
   * New options read false and unset; assigning a bool reads it back and
   * is set, so assigning false is told apart from never assigning only by
   * the `IsSet` check.
   */
  method AssignStaticRoutesOnly(value: bool) returns (readBefore: bool, setBefore: bool, readAfter: bool, setAfter: bool)
    ensures !readBefore && !setBefore
    ensures readAfter == value && setAfter
    ensures !value ==> readAfter == readBefore && setAfter != setBefore
  {
    var options := new VpnConnectionOptions();
    readBefore := options.StaticRoutesOnly();
    setBefore := options.IsSetStaticRoutesOnly();
    options.SetStaticRoutesOnly(value);
    readAfter := options.StaticRoutesOnly();
    setAfter := options.IsSetStaticRoutesOnly();
  }
}
