/** The boot options of a DHCP server. */
module DhcpBoot {
  import opened Common
  import opened Ipv4

  datatype Boot = Boot(
    server: Option<IP>, file: string, legacy: string, uefi: string, ipxe: string, macFiles: map<string, string>)

  const NO_BOOT := Boot(None, "", "", "", "", map[])
}
