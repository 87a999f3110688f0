/**
 * The OpenCL lookup tables of src/opencl/util.cpp: the name of an OpenCL
 * error code and the name of a device type. The numeric values are the
 * ones the OpenCL specification assigns in its cl.h header.
 */
module OpenCL {
  import opened Strings
  import opened Wrappers

  /** The number of entries of the error table. */
  const ErrorCount := 71

  /** The names of codes 0 to -19, after their "CL_" prefix. */
  function StatusName(index: nat): string
    requires index < 20
  {
    match index
    case 0 => "SUCCESS"
    case 1 => "DEVICE_NOT_FOUND"
    case 2 => "DEVICE_NOT_AVAILABLE"
    case 3 => "COMPILER_NOT_AVAILABLE"
    case 4 => "MEM_OBJECT_ALLOCATION_FAILURE"
    case 5 => "OUT_OF_RESOURCES"
    case 6 => "OUT_OF_HOST_MEMORY"
    case 7 => "PROFILING_INFO_NOT_AVAILABLE"
    case 8 => "MEM_COPY_OVERLAP"
    case 9 => "IMAGE_FORMAT_MISMATCH"
    case 10 => "IMAGE_FORMAT_NOT_SUPPORTED"
    case 11 => "BUILD_PROGRAM_FAILURE"
    case 12 => "MAP_FAILURE"
    case 13 => "MISALIGNED_SUB_BUFFER_OFFSET"
    case 14 => "EXEC_STATUS_ERROR_FOR_EVENTS_IN_WAIT_LIST"
    case 15 => "COMPILE_PROGRAM_FAILURE"
    case 16 => "LINKER_NOT_AVAILABLE"
    case 17 => "LINK_PROGRAM_FAILURE"
    case 18 => "DEVICE_PARTITION_FAILED"
    case 19 => "KERNEL_ARG_INFO_NOT_AVAILABLE"
  }

  /** The names of codes -30 to -70, after their "CL_INVALID_" prefix. */
  function InvalidName(index: nat): string
    requires index < 41
  {
    match index
    case 0 => "VALUE"
    case 1 => "DEVICE_TYPE"
    case 2 => "PLATFORM"
    case 3 => "DEVICE"
    case 4 => "CONTEXT"
    case 5 => "QUEUE_PROPERTIES"
    case 6 => "COMMAND_QUEUE"
    case 7 => "HOST_PTR"
    case 8 => "MEM_OBJECT"
    case 9 => "IMAGE_FORMAT_DESCRIPTOR"
    case 10 => "IMAGE_SIZE"
    case 11 => "SAMPLER"
    case 12 => "BINARY"
    case 13 => "BUILD_OPTIONS"
    case 14 => "PROGRAM"
    case 15 => "PROGRAM_EXECUTABLE"
    case 16 => "KERNEL_NAME"
    case 17 => "KERNEL_DEFINITION"
    case 18 => "KERNEL"
    case 19 => "ARG_INDEX"
    case 20 => "ARG_VALUE"
    case 21 => "ARG_SIZE"
    case 22 => "KERNEL_ARGS"
    case 23 => "WORK_DIMENSION"
    case 24 => "WORK_GROUP_SIZE"
    case 25 => "WORK_ITEM_SIZE"
    case 26 => "GLOBAL_OFFSET"
    case 27 => "EVENT_WAIT_LIST"
    case 28 => "EVENT"
    case 29 => "OPERATION"
    case 30 => "GL_OBJECT"
    case 31 => "BUFFER_SIZE"
    case 32 => "MIP_LEVEL"
    case 33 => "GLOBAL_WORK_SIZE"
    case 34 => "PROPERTY"
    case 35 => "IMAGE_DESCRIPTOR"
    case 36 => "COMPILER_OPTIONS"
    case 37 => "LINKER_OPTIONS"
    case 38 => "DEVICE_PARTITION_COUNT"
    case 39 => "PIPE_SIZE"
    case 40 => "DEVICE_QUEUE"
  }

  /** The error name at `index`, the negated error code; codes -20 to -29 have no name. */
  function ErrorName(index: nat): string
    requires index < ErrorCount
  {
    if index < 20 then "CL_" + StatusName(index)
    else if index < 30 then ""
    else "CL_INVALID_" + InvalidName(index - 30)
  }

  /** `error_string(error)`: the name of a code in the table, "UNKNOWN" outside it. */
  function ErrorString(error: int): string
  {
    var index := -error;
    if 0 <= index < ErrorCount then ErrorName(index) else "UNKNOWN"
  }

  predicate StartsWith(s: string, prefix: string)
  {
    |prefix| <= |s| && s[..|prefix|] == prefix
  }

  /**
   * The shape of the table: 71 entries; 0 to -19 are named "CL_...", -20
   * to -29 are empty, -30 to -70 are the "CL_INVALID_..." family; every
   * other code, positive or below -70, is "UNKNOWN", a name no code in the
   * table has.
   */
  lemma ErrorStringShape(error: int)
    ensures (error > 0 || error < -70) ==> ErrorString(error) == "UNKNOWN"
    ensures -29 <= error <= -20 ==> ErrorString(error) == ""
    ensures -19 <= error <= 0 ==> StartsWith(ErrorString(error), "CL_")
    ensures -70 <= error <= -30 ==> StartsWith(ErrorString(error), "CL_INVALID_")
    ensures -70 <= error <= 0 ==> ErrorString(error) != "UNKNOWN"
  {
    if -70 <= error <= 0 {
      ErrorNamesShape(-error);
    }
  }

  lemma ErrorNamesShape(i: nat)
    requires i < ErrorCount
    ensures 20 <= i < 30 ==> ErrorName(i) == ""
    ensures i < 20 ==> StartsWith(ErrorName(i), "CL_")
    ensures 30 <= i ==> StartsWith(ErrorName(i), "CL_INVALID_")
    ensures ErrorName(i) != "UNKNOWN"
  {
    var name := ErrorName(i);
    if i < 20 {
      assert name[..3] == "CL_";
    } else if 30 <= i {
      assert name[..11] == "CL_INVALID_";
    }
  }

  /** The first and last codes of the status run of the table. */
  lemma StatusAnchors()
    ensures ErrorString(0) == "CL_" + "SUCCESS"
    ensures ErrorString(-1) == "CL_" + "DEVICE_NOT_FOUND"
    ensures ErrorString(-19) == "CL_" + "KERNEL_ARG_INFO_NOT_AVAILABLE"
  {
  }

  /** The first and last codes of the invalid-argument run, and the codes just outside the table. */
  lemma InvalidAnchors()
    ensures ErrorString(-30) == "CL_INVALID_" + "VALUE"
    ensures ErrorString(-70) == "CL_INVALID_" + "DEVICE_QUEUE"
    ensures ErrorString(-71) == "UNKNOWN" && ErrorString(1) == "UNKNOWN"
  {
  }

  /** The device type bits of cl.h. */
  const DeviceTypeDefault: nat := 1
  const DeviceTypeCpu: nat := 2
  const DeviceTypeGpu: nat := 4
  const DeviceTypeAccelerator: nat := 8
  const DeviceTypeAll: nat := 0xFFFF_FFFF

  /** `device_type_string(type)`: the name of one of the five device types, "UNKNOWN" for any other value. */
  function DeviceTypeString(t: nat): string
  {
    if t == DeviceTypeDefault then "DEFAULT"
    else if t == DeviceTypeCpu then "CPU"
    else if t == DeviceTypeGpu then "GPU"
    else if t == DeviceTypeAccelerator then "ACCELERATOR"
    else if t == DeviceTypeAll then "ALL"
    else "UNKNOWN"
  }

  /** Reading a device type back from its name. */
  function DeviceTypeOfName(name: string): Option<nat>
  {
    if name == "DEFAULT" then Some(DeviceTypeDefault)
    else if name == "CPU" then Some(DeviceTypeCpu)
    else if name == "GPU" then Some(DeviceTypeGpu)
    else if name == "ACCELERATOR" then Some(DeviceTypeAccelerator)
    else if name == "ALL" then Some(DeviceTypeAll)
    else None
  }

  /**
   * Exactly the five device types have a name, each its own: the name
   * reads back as the type, and every other value is "UNKNOWN".
   */
  lemma DeviceTypeNames(t: nat)
    ensures var known := t in {DeviceTypeDefault, DeviceTypeCpu, DeviceTypeGpu, DeviceTypeAccelerator, DeviceTypeAll};
      && (known <==> DeviceTypeString(t) != "UNKNOWN")
      && (known ==> DeviceTypeOfName(DeviceTypeString(t)) == Some(t))
      && (!known ==> DeviceTypeOfName(DeviceTypeString(t)) == None)
  {
  }
}
