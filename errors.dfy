/** The two domain errors the read path throws (src/errors.ts and the
    page-range check of the repository and the controller). */
module ProductErrors {

  datatype Error =
    /** No product has the requested uuid (`ErrorProductNotFoundByUuid`). */
    | ProductNotFoundByUuid(uuid: string)
    /** The requested page lies past the last page (`ErrorPageDoesNotExist`). */
    | PageDoesNotExist(page: int, lastPage: int)
}
