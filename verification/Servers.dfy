/** What servers and groups have in common (src/Server.h, src/Common.h). */
module Servers {

  datatype Role = Unknown | Master | Slave

  const MAX_SERV_IN_GROUP: nat := 64
}
