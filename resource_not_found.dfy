/** The four constructors of ResourceNotFoundException and the messages they produce. */
module ResourceNotFound {
  import opened JavaText
  import opened Failures

  /** `new ResourceNotFoundException(message)`. */
  function WithMessage(message: string): (f: Failure)
    ensures f.NotFound? && f.message == message
  {
    NotFound(message)
  }

  /** `new ResourceNotFoundException(message, cause)`: the cause leaves the message alone. */
  function WithCause(message: string, cause: Failure): (f: Failure)
    ensures f == WithMessage(message)
  {
    NotFound(message)
  }

  /** `new ResourceNotFoundException(type, id)`: "<type> avec l'ID <id> introuvable". */
  function ById(resourceType: string, id: int): (f: Failure)
    ensures f.NotFound?
    ensures f.message == resourceType + " avec l'ID " + Decimal(id) + " introuvable"
  {
    NotFound(resourceType + " avec l'ID " + Decimal(id) + " introuvable")
  }

  /** `new ResourceNotFoundException(type, tmdbId, idType)`: "<type> avec l'<idType> <tmdbId> introuvable". */
  function ByExternalId(resourceType: string, tmdbId: int, idType: string): (f: Failure)
    ensures f.NotFound?
    ensures f.message == resourceType + " avec l'" + idType + " " + Decimal(tmdbId) + " introuvable"
  {
    NotFound(resourceType + " avec l'" + idType + " " + Decimal(tmdbId) + " introuvable")
  }

  /** The (type, id) message is the (type, id, idType) message with idType "ID". */
  lemma ByIdIsByExternalIdNamedId(resourceType: string, id: int)
    ensures ById(resourceType, id) == ByExternalId(resourceType, id, "ID")
  {
    assert resourceType + " avec l'ID " == resourceType + " avec l'" + "ID" + " ";
  }

  /** The message names the id: two different ids of one type never share a message. */
  lemma {:induction false} ByIdInjective(resourceType: string, a: int, b: int)
    ensures ById(resourceType, a) == ById(resourceType, b) ==> a == b
  {
    if ById(resourceType, a) == ById(resourceType, b) {
      var prefix := resourceType + " avec l'ID ";
      var suffix := " introuvable";
      var ma := ById(resourceType, a).message;
      assert ma == prefix + Decimal(a) + suffix;
      assert ma == prefix + Decimal(b) + suffix;
      assert |Decimal(a)| == |Decimal(b)|;
      assert Decimal(a) == ma[|prefix|..|ma| - |suffix|];
      assert Decimal(b) == ma[|prefix|..|ma| - |suffix|];
      DecimalInjective(a, b);
    }
  }
}
