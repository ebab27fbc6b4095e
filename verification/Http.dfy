/** The request methods an endpoint can have. */
module Http {
  datatype HttpMethod = Get | Post | Patch | Put | Delete
}
