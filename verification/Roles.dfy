/** The role codes of role assignments. */
module Roles {
  /** Role codes are strings; UNKNOWN stands for any string that is not one of the eight. */
  datatype Role =
    | SITE_ADMIN
    | DEPARTMENT_ADMIN | DEPARTMENT_VIEWER
    | LOCATION_ADMIN | LOCATION_VIEWER
    | ROOM_ADMIN | ROOM_CLERK | ROOM_VIEWER
    | UNKNOWN(code: string)
}
