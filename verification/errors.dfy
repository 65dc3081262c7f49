/**
  The failures raised by the modelled operations. In the source the store
  failures are `ObjectToIdMappingException`s; the registry's own failure type
  is not part of this model and is represented by `UnknownObservableObject`.
 */
module Errors {
  import opened Wrappers
  import opened Values

  datatype Failure =
    | NoMetaDataForList(listId: Uuid)
    | MetaDataAlreadyStored(listId: Uuid)
    | UnknownObservableObject(id: Option<Uuid>)
}
