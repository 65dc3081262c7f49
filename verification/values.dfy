/**
  The payload of list commands (Value.java): either the id of an observable
  object, or a simple object carried inline.

  The source keeps two final, nullable fields and classifies a value by
  testing only the simple-object field. This module keeps exactly that raw
  representation, so that the corner case of a null simple object stays
  visible, and states the intended tagged-union invariant separately.
 */
module Values {
  import opened Wrappers

  /** A `java.util.UUID`. Identifiers and versions are only ever compared for equality. */
  datatype Uuid = Uuid(bits: nat)

  /** A simple (non-observable) object such as a string or a boxed number. */
  datatype SimpleObject = SimpleObject(repr: string)

  /** Both fields are final; `None` stands for `null`. */
  datatype Value = Value(observableObjectId: Option<Uuid>, simpleObjectValue: Option<SimpleObject>) {

    /** `isSimpleObject()`: looks at the simple-object field only. */
    predicate IsSimpleObject() {
      simpleObjectValue.Some?
    }

    /** The tagged-union reading of a value: exactly one of the two fields is set. */
    predicate WellFormed() {
      observableObjectId.Some? != simpleObjectValue.Some?
    }
  }

  /** `new Value(UUID observableObjectID)` */
  function OfObservableObject(observableObjectId: Option<Uuid>): Value {
    Value(observableObjectId, None)
  }

  /** `new Value(Object simpleObjectValue)` */
  function OfSimpleObject(simpleObjectValue: Option<SimpleObject>): Value {
    Value(None, simpleObjectValue)
  }

  /** The id constructor wraps its argument and reports an observable object. */
  lemma ObservableConstructor(id: Option<Uuid>)
    ensures OfObservableObject(id).observableObjectId == id
    ensures OfObservableObject(id).simpleObjectValue == None
    ensures !OfObservableObject(id).IsSimpleObject()
  {
  }

  /** The simple-object constructor wraps its argument; the value counts as
      simple exactly when that argument is non-null. */
  lemma SimpleObjectConstructor(obj: Option<SimpleObject>)
    ensures OfSimpleObject(obj).simpleObjectValue == obj
    ensures OfSimpleObject(obj).observableObjectId == None
    ensures OfSimpleObject(obj).IsSimpleObject() <==> obj.Some?
  {
  }

  /** With a non-null argument either constructor yields a well-formed value,
      and `IsSimpleObject` tells which constructor was used. */
  lemma NonNullConstructionIsWellFormed(id: Uuid, obj: SimpleObject)
    ensures OfObservableObject(Some(id)).WellFormed()
    ensures OfSimpleObject(Some(obj)).WellFormed()
    ensures !OfObservableObject(Some(id)).IsSimpleObject()
    ensures OfSimpleObject(Some(obj)).IsSimpleObject()
  {
  }

  /** On well-formed values the classification agrees with the getters'
      documentation: a value is simple exactly when it has no observable id. */
  lemma ClassificationOnWellFormed(v: Value)
    requires v.WellFormed()
    ensures v.IsSimpleObject() <==> v.observableObjectId == None
    ensures !v.IsSimpleObject() <==> v.simpleObjectValue == None
  {
  }

  /** A value built from a null simple object is classified as observable yet
      has a null id: it has the same fields as the value built from a null id,
      and it is the only constructed value that is not well-formed. */
  lemma NullSimpleObjectLooksObservable()
    ensures !OfSimpleObject(None).IsSimpleObject()
    ensures OfSimpleObject(None).observableObjectId == None
    ensures OfSimpleObject(None) == OfObservableObject(None)
    ensures !OfSimpleObject(None).WellFormed()
  {
  }

  /** Every constructed value is either well-formed or the all-null value. */
  lemma ConstructedValuesAreWellFormedOrNull(id: Option<Uuid>, obj: Option<SimpleObject>)
    ensures OfObservableObject(id).WellFormed() <==> id.Some?
    ensures OfSimpleObject(obj).WellFormed() <==> obj.Some?
    ensures !OfSimpleObject(obj).WellFormed() ==> OfSimpleObject(obj) == Value(None, None)
  {
  }
}
