/** The GATT hierarchy both sides share (profile.go, uuid.go, const.go). */
module Profile {
  import opened Bytes
  import opened Wrappers

  /** A UUID in wire order; the stack uses 2 and 16 byte forms. */
  type UUID = seq<Byte>

  const PRIMARY_SERVICE: UUID := [0x00, 0x28]
  const CHARACTERISTIC: UUID := [0x03, 0x28]
  const CLIENT_CHARACTERISTIC_CONFIG: UUID := [0x02, 0x29]

  const DEFAULT_MTU := 23
  const MAX_MTU := 515

  class Descriptor {
    const uuid: UUID
    var value: Option<seq<Byte>>
    var hasReadHandler: bool
    var hasWriteHandler: bool
    var handle: U16

    constructor (uuid: UUID)
      ensures this.uuid == uuid && value == None && !hasReadHandler && !hasWriteHandler && handle == 0
    {
      this.uuid, value, hasReadHandler, hasWriteHandler, handle := uuid, None, false, false, 0;
    }
  }

  class Characteristic {
    const uuid: UUID
    var property: int
    var descriptors: seq<Descriptor>
    var cccd: Descriptor?
    var value: Option<seq<Byte>>
    var hasReadHandler: bool
    var hasWriteHandler: bool
    var hasNotifyHandler: bool
    var hasIndicateHandler: bool
    var handle: U16
    var valueHandle: U16
    var endHandle: U16

    /** A characteristic as discovery fills it in; everything else is zero. */
    constructor (uuid: UUID, property: int, handle: U16, valueHandle: U16, endHandle: U16)
      ensures this.uuid == uuid && this.property == property && this.handle == handle
      ensures this.valueHandle == valueHandle && this.endHandle == endHandle
      ensures descriptors == [] && cccd == null && value == None
      ensures !hasReadHandler && !hasWriteHandler && !hasNotifyHandler && !hasIndicateHandler
    {
      this.uuid, this.property, this.handle := uuid, property, handle;
      this.valueHandle, this.endHandle := valueHandle, endHandle;
      descriptors, cccd, value := [], null, None;
      hasReadHandler, hasWriteHandler, hasNotifyHandler, hasIndicateHandler := false, false, false, false;
    }
  }

  class Service {
    const uuid: UUID
    var characteristics: seq<Characteristic>
    var handle: U16
    var endHandle: U16

    constructor (uuid: UUID, handle: U16, endHandle: U16)
      ensures this.uuid == uuid && characteristics == [] && this.handle == handle && this.endHandle == endHandle
    {
      this.uuid, characteristics, this.handle, this.endHandle := uuid, [], handle, endHandle;
    }
  }
}
