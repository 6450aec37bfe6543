/** Users as the node holds them (UserConfig in translate.go, UserEntry in service.go). */
module Users {
  import opened Bytes

  datatype UserConfig = UserConfig(id: int, password: bytes, speedLimit: int, deviceLimit: int, tcpConnLimit: int)

  datatype UserEntry = UserEntry(config: UserConfig, masterKey: bytes)
}
