// CreateIdentityPoolRequest (Amazon Cognito Identity): a `bool?` member read
// through `GetValueOrDefault`, a string member and a dictionary member that
// starts as an empty dictionary.
module CognitoCreateIdentityPoolRequest {
  import opened Wrappers
  import opened Presence

  class CreateIdentityPoolRequest {
    var allowUnauthenticatedIdentities: Option<bool>
    var identityPoolName: Option<string>
    var supportedLoginProviders: Option<map<string, string>>

    constructor ()
      ensures allowUnauthenticatedIdentities == None && identityPoolName == None
      ensures supportedLoginProviders == Some(map[])
      ensures !IsSetAllowUnauthenticatedIdentities() && !IsSetIdentityPoolName() && !IsSetSupportedLoginProviders()
      ensures !AllowUnauthenticatedIdentities()
    {
      allowUnauthenticatedIdentities := None;
      identityPoolName := None;
      supportedLoginProviders := Some(map[]);
    }

    /** The property reads false while nothing is stored. */
    function AllowUnauthenticatedIdentities(): bool
      reads this
    {
      BoolOrDefault(allowUnauthenticatedIdentities)
    }

    function IdentityPoolName(): Option<string>
      reads this
    {
      identityPoolName
    }

    function SupportedLoginProviders(): Option<map<string, string>>
      reads this
    {
      supportedLoginProviders
    }

    predicate IsSetAllowUnauthenticatedIdentities()
      reads this
    {
      IsSetValue(allowUnauthenticatedIdentities)
    }

    predicate IsSetIdentityPoolName()
      reads this
    {
      IsSetValue(identityPoolName)
    }

    predicate IsSetSupportedLoginProviders()
      reads this
    {
      IsSetDictionary(supportedLoginProviders)
    }

    /** The setter takes a plain bool, so afterwards the member is set whatever it was. */
    method SetAllowUnauthenticatedIdentities(value: bool)
      modifies this
      ensures allowUnauthenticatedIdentities == Some(value)
      ensures AllowUnauthenticatedIdentities() == value && IsSetAllowUnauthenticatedIdentities()
      ensures identityPoolName == old(identityPoolName) && supportedLoginProviders == old(supportedLoginProviders)
    {
      allowUnauthenticatedIdentities := Some(value);
    }

    method SetIdentityPoolName(value: Option<string>)
      modifies this
      ensures IdentityPoolName() == value
      ensures IsSetIdentityPoolName() <==> value.Some?
      ensures allowUnauthenticatedIdentities == old(allowUnauthenticatedIdentities)
      ensures supportedLoginProviders == old(supportedLoginProviders)
    {
      identityPoolName := value;
    }

    method SetSupportedLoginProviders(value: Option<map<string, string>>)
      modifies this
      ensures SupportedLoginProviders() == value
      ensures IsSetSupportedLoginProviders() <==> value.Some? && |value.value| > 0
      ensures allowUnauthenticatedIdentities == old(allowUnauthenticatedIdentities)
      ensures identityPoolName == old(identityPoolName)
    {
      supportedLoginProviders := value;
    }
  }

  /**
   * A new request reads `AllowUnauthenticatedIdentities` as false and unset;
   * after assigning any bool, false included, it reads that bool and is set.
   */
  method AssignAllowUnauthenticatedIdentities(value: bool)
    returns (readBefore: bool, setBefore: bool, readAfter: bool, setAfter: bool)
    ensures !readBefore && !setBefore
    ensures readAfter == value && setAfter
  {
    var request := new CreateIdentityPoolRequest();
    readBefore := request.AllowUnauthenticatedIdentities();
    setBefore := request.IsSetAllowUnauthenticatedIdentities();
    request.SetAllowUnauthenticatedIdentities(value);
    readAfter := request.AllowUnauthenticatedIdentities();
    setAfter := request.IsSetAllowUnauthenticatedIdentities();
  }

  /**
   * Assigning the name and the providers: each reads back as assigned; the
   * name is set iff non-null and the providers iff non-null and non-empty.
   */
  method AssignNameAndProviders(name: Option<string>, providers: Option<map<string, string>>)
    returns (readName: Option<string>, readProviders: Option<map<string, string>>, nameSet: bool, providersSet: bool, flagSet: bool)
    ensures readName == name && readProviders == providers
    ensures nameSet <==> name.Some?
    ensures providersSet <==> providers.Some? && |providers.value| > 0
    ensures !flagSet
  {
    var request := new CreateIdentityPoolRequest();
    request.SetIdentityPoolName(name);
    request.SetSupportedLoginProviders(providers);
    readName := request.IdentityPoolName();
    readProviders := request.SupportedLoginProviders();
    nameSet := request.IsSetIdentityPoolName();
    providersSet := request.IsSetSupportedLoginProviders();
    flagSet := request.IsSetAllowUnauthenticatedIdentities();
  }
}
