/** The request methods Django's class-based views dispatch on
    (`View.http_method_names`). */
module Http {

  datatype HttpMethod = GET | HEAD | OPTIONS | POST | PUT | PATCH | DELETE | TRACE
}
